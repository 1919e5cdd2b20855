/**
 * The controller in its own form: Reconcile and handleDeletion change the object they have
 * read in place and send it back.  As in the rotator, a ghost trace names each event, and
 * Valid() says that it is a run of the machine that leads to the present state.
 */
module Reconcilers {
  import opened Api
  import opened Prelude
  import M = PolicyMachine
  import opened PolicyConvergence

  type Policy = M.Policy
  type Pc = M.Pc

  datatype GetResult = Found(policy: PolicyObject, seen: nat) | NotFound | GetError

  /** The object in memory. */
  class PolicyObject {
    const uid: nat
    const deleting: bool
    const spec: PolicySpec
    var finalizers: seq<string>
    var conditions: seq<Condition>

    function Value(): Policy
      reads this
    {
      M.Policy(uid, finalizers, deleting, conditions, spec)
    }

    constructor (p: Policy)
      ensures Value() == p
    {
      uid, deleting, spec, finalizers, conditions := p.uid, p.deleting, p.spec, p.finalizers, p.conditions;
    }

    /** controllerutil.AddFinalizer. */
    method AddFinalizer()
      modifies this`finalizers
      ensures finalizers == M.AddFinalizer(old(finalizers))
    {
      if M.FINALIZER !in finalizers {
        finalizers := finalizers + [M.FINALIZER];
      }
    }

    /** controllerutil.RemoveFinalizer: one pass that keeps what is not ours. */
    method RemoveFinalizer()
      modifies this`finalizers
      ensures finalizers == M.Others(old(finalizers))
    {
      var kept := [];
      for i := 0 to |finalizers|
        invariant finalizers == old(finalizers)
        invariant kept == M.Others(finalizers[..i])
      {
        assert finalizers[..i + 1] == finalizers[..i] + [finalizers[i]];
        OthersAppend(finalizers[..i], [finalizers[i]]);
        assert M.Others([finalizers[i]]) == if finalizers[i] == M.FINALIZER then [] else [finalizers[i]];
        if finalizers[i] != M.FINALIZER {
          kept := kept + [finalizers[i]];
        }
      }
      assert finalizers[..|finalizers|] == finalizers;
      finalizers := kept;
    }

    /** setCondition, with meta.SetStatusCondition: look the kind up, then change or append. */
    method SetCondition(kind: string, status: string, reason: string, message: string, now: int)
      modifies this`conditions
      ensures conditions == M.SetStatusCondition(old(conditions), Condition(kind, status, reason, message, now))
    {
      var c := Condition(kind, status, reason, message, now);
      var i := 0;
      while i < |conditions| && conditions[i].kind != kind
        invariant i <= |conditions|
        invariant forall k :: 0 <= k < i ==> conditions[k].kind != kind
      {
        i := i + 1;
      }
      FindIs(conditions, kind, i);
      if i == |conditions| {
        conditions := conditions + [c];
      } else {
        var old_ := conditions[i];
        if old_.status != status {
          old_ := old_.(status := status, since := now);
        }
        conditions := conditions[i := old_.(reason := reason, message := message)];
      }
    }
  }

  /** q is p, one Reconcile at time now later. */
  predicate Reconciled(p: Option<Policy>, q: Option<Policy>, now: int) {
    match p
    case None => q == None
    case Some(o) =>
      if o.deleting then
        // our finalizer goes, and the object with it if it was the last one
        q == M.Settle(o.(finalizers := M.Others(o.finalizers)))
      else if "deployguard.io/policy-finalizer" !in o.finalizers then
        q == Some(o.(finalizers := o.finalizers + ["deployguard.io/policy-finalizer"]))
      else
        q.Some? && q == Some(o.(conditions := q.value.conditions)) && ShowsReady(o.conditions, q.value.conditions, now)
  }

  class Reconciler {
    var past: seq<Option<Policy>>
    var stored: Option<Policy>
    var cache: nat
    var notices: nat
    var dirty: bool
    var retry: bool
    const calm: bool  // no call ever fails, and nobody else ever moves
    ghost var pc: Pc
    ghost var dropped: bool
    ghost const start: M.Machine
    ghost var trace: seq<M.Label>

    ghost function State(): M.Machine
      reads this
    {
      M.Machine(past, stored, cache, notices, dirty, retry, pc, dropped)
    }

    ghost predicate Valid()
      reads this
    {
      M.Exec(start, trace) == Some(State()) && cache <= |past|
    }

    twostate predicate Ran()
      reads this
    {
      Valid() && old(trace) <= trace && M.Versions(old(State())) <= M.Versions(State())
    }

    constructor (calm: bool)
      ensures this.calm == calm && Valid() && State() == M.INITIAL && start == M.INITIAL && trace == []
    {
      this.calm := calm;
      past, stored, cache, notices, dirty, retry := [], None, 0, 0, false, false;
      pc, dropped, start, trace := M.Idle, false, M.INITIAL, [];
    }

    ghost method Log(before: M.Machine, l: M.Label)
      requires M.Exec(start, trace) == Some(before)
      requires M.Next(before, l) == Some(State()) && cache <= |past|
      modifies this`trace
      ensures trace == old(trace) + [l] && Valid()
      ensures M.Versions(before) <= M.Versions(State())
    {
      M.ExecSnoc(start, trace, l);
      M.VersionsKept(before, l);
      trace := trace + [l];
    }

    /** The API server takes o as the new version, unless nothing changes. */
    method Store(o: Option<Policy>)
      modifies this`past, this`stored, this`dropped
      ensures State() == M.Commit(old(State()), o)
    {
      if o != stored {
        past, stored, dropped := past + [stored], o, false;
      }
    }

    /** The API server has taken o as the new version because of l. */
    method StoreFor(o: Option<Policy>, ghost l: M.Label)
      requires Valid() && M.Next(State(), l) == Some(M.Commit(State(), o))
      modifies this`past, this`stored, this`dropped, this`trace
      ensures Ran()
    {
      ghost var s := State();
      Store(o);
      Log(s, l);
    }

    /** A user creates, edits or deletes the object, as far as the API server lets them. */
    method UserMove()
      requires Valid()
      modifies this
      ensures Ran() && pc == old(pc)
    {
      var kind: nat :| true;
      var p: Policy := *;
      var fresh_ := forall v | v in past + [stored] && v.Some? :: v.value.uid != p.uid;
      if kind == 0 && stored.None? && !p.deleting && fresh_ {
        StoreFor(Some(p), M.Create(p));
      } else if kind == 1 && stored.Some? && M.Allowed(stored.value, p) {
        StoreFor(M.Settle(p), M.Edit(p));
      } else if kind == 2 && stored.Some? {
        StoreFor(M.Settle(stored.value.(deleting := true)), M.Delete);
      }
    }

    /** The cache shows this version, and an event is on its way. */
    method Notice(version: nat, ghost l: M.Label)
      requires Valid() && version <= |past|
      requires M.Next(State(), l) == Some(State().(cache := version, notices := notices + 1))
      modifies this`cache, this`notices, this`trace
      ensures Ran()
    {
      ghost var s := State();
      cache, notices := version, notices + 1;
      Log(s, l);
    }

    /** The cache catches up, or sends events without a change. */
    method CacheMove()
      requires Valid()
      modifies this
      ensures Ran() && pc == old(pc)
    {
      var kind: nat :| true;
      var version: nat :| true;
      if kind == 0 && cache < version <= |past| {
        Notice(version, M.Observe(version));
      } else if kind == 1 {
        Notice(cache, M.Resync);
      }
    }

    /** The queue holds the key. */
    method Enqueue(notices': nat, retry': bool, ghost l: M.Label)
      requires Valid()
      requires M.Next(State(), l) == Some(State().(notices := notices', retry := retry', dirty := true))
      modifies this`notices, this`retry, this`dirty, this`trace
      ensures Ran()
    {
      ghost var s := State();
      notices, retry, dirty := notices', retry', true;
      Log(s, l);
    }

    /** An event reaches the queue, or a retry falls due. */
    method QueueMove()
      requires Valid()
      modifies this
      ensures Ran() && pc == old(pc)
    {
      var kind: nat :| true;
      if kind == 0 && notices > 0 {
        Enqueue(notices - 1, retry, M.Deliver);
      } else if kind == 1 && retry {
        Enqueue(notices, false, M.RetryDue);
      }
    }

    /** Any number of moves of users, of the cache and of the queue; none in calm surroundings. */
    method Others()
      requires Valid()
      modifies this
      ensures Ran() && pc == old(pc) && (calm ==> State() == old(State()))
    {
      var moves: nat :| true;
      for i := 0 to if calm then 0 else moves
        invariant Ran() && pc == old(pc) && (calm ==> State() == old(State()))
      {
        var who: nat :| true;
        if who == 0 {
          UserMove();
        } else if who == 1 {
          CacheMove();
        } else {
          QueueMove();
        }
      }
    }

    /** What version seen was. */
    ghost function Read(seen: nat): Option<Policy>
      reads this
    {
      if seen <= |past| then M.Versions(State())[seen] else None
    }

    /** Client.Get: the cached version, or an error. */
    method Get() returns (r: GetResult)
      requires Valid() && pc == M.Started
      modifies this
      ensures Ran()
      ensures calm ==> !r.GetError? && State() == old(State()).(pc := pc)
      ensures calm ==> (r.Found? <==> old(Read(cache)).Some?) && (r.Found? ==> r.seen == cache)
      ensures match r
              case GetError => pc == M.Failed
              case NotFound => pc == M.Idle
              case Found(policy, seen) =>
                fresh(policy) && Read(seen) == Some(policy.Value()) && pc == M.Decide(seen, Read(seen))
    {
      Others();
      ghost var s := State();
      var err: bool := *;
      if err && !calm {
        pc := M.Failed;
        Log(s, M.ReadError);
        return GetError;
      }
      var o := (past + [stored])[cache];
      pc := M.Decide(cache, o);
      Log(s, M.Read);
      if o.None? {
        return NotFound;
      }
      var policy := new PolicyObject(o.value);
      r := Found(policy, cache);
    }

    /** The request fails on the way. */
    method Lose(status: bool)
      requires Valid() && M.Writing(pc) && status == pc.Marking?
      modifies this`pc, this`dropped, this`trace
      ensures Ran() && pc == if status then M.Idle else M.Failed
    {
      ghost var s := State();
      pc, dropped := if status then M.Idle else M.Failed, dropped || M.LostMark(s);
      Log(s, M.WriteError);
    }

    /** Conflict, or not found. */
    method Refuse(status: bool, ghost now: int)
      requires Valid() && M.Writing(pc) && status == pc.Marking? && !M.Accepted(State())
      modifies this`pc, this`trace
      ensures Ran() && pc == if status then M.Idle else M.Failed
    {
      ghost var s := State();
      pc := if status then M.Idle else M.Failed;
      Log(s, M.Write(now));
    }

    /** The client learns of an accepted write, or sees an error. */
    ghost method Answer(s: M.Machine, err: bool, status: bool, now: int)
      requires M.Exec(start, trace) == Some(s) && M.Accepted(s) && status == s.pc.Marking? && cache <= |past|
      requires State() == M.Written(s, now)
      requires M.Next(s, M.Write(now)) == Some(M.Written(s, now).(pc := M.Idle))
      requires M.Next(s, M.WriteTimeout(now)) == Some(M.Written(s, now).(pc := if status then M.Idle else M.Failed))
      modifies this`pc, this`trace
      ensures Valid() && old(trace) <= trace && M.Versions(s) <= M.Versions(State())
      ensures pc == if err && !status then M.Failed else M.Idle
    {
      pc := if err && !status then M.Failed else M.Idle;
      Log(s, if err then M.WriteTimeout(now) else M.Write(now));
    }

    /** The API server's side of an accepted write. */
    method Replace(policy: PolicyObject, status: bool, ghost now: int)
      requires M.Accepted(State()) && status == pc.Marking?
      requires policy.Value() == M.Outgoing(pc, stored.value, now)
      modifies this`past, this`stored, this`dropped
      ensures State() == M.Written(old(State()), now)
    {
      if status {
        Store(M.Settle(stored.value.(conditions := policy.conditions)));
      } else {
        Store(M.Settle(stored.value.(finalizers := policy.finalizers, spec := policy.spec)));
      }
    }

    /** The write is accepted; its answer may get lost. */
    method Accept(policy: PolicyObject, status: bool, ghost now: int) returns (err: bool)
      requires Valid() && M.Accepted(State()) && status == pc.Marking?
      requires policy.Value() == M.Outgoing(pc, stored.value, now)
      modifies this
      ensures Ran() && pc == if err && !status then M.Failed else M.Idle
      ensures stored == M.Settle(policy.Value()) && (calm ==> !err)
    {
      ghost var s := State();
      M.AfterWrite(s, now);
      Replace(policy, status, now);
      err := *;
      err := err && !calm;
      Answer(s, err, status, now);
    }

    /**
     * Client.Update (status false) or Status().Update (status true) of an object read as
     * version seen: each takes over its own part of the object that is sent.
     */
    method Send(policy: PolicyObject, seen: nat, status: bool, ghost now: int) returns (err: bool)
      requires Valid() && M.Writing(pc) && pc.seen == seen && status == pc.Marking?
      requires Read(seen).Some? && policy.Value() == M.Outgoing(pc, Read(seen).value, now)
      modifies this
      ensures Ran()
      ensures pc == if err && !status then M.Failed else M.Idle
      ensures calm && seen == |old(past)| ==> !err && stored == M.Settle(policy.Value())
      ensures calm && seen < |old(past)| ==> err && stored == old(stored)
    {
      ghost var read := Read(seen).value;
      Others();
      assert Read(seen) == Some(read);
      var lost: bool := *;
      if lost && !calm {
        Lose(status);
        err := true;
      } else if seen != |past| || stored.None? {
        Refuse(status, now);
        err := true;
      } else {
        err := Accept(policy, status, now);
      }
    }

    /** handleDeletion. */
    method HandleDeletion(policy: PolicyObject, seen: nat) returns (err: bool)
      requires Valid() && pc == M.Removing(seen) && Read(seen) == Some(policy.Value())
      modifies this, policy
      ensures Ran()
      ensures pc == if err then M.Failed else M.Idle
      ensures calm && seen == |old(past)| ==>
                !err && stored == M.Settle(old(policy.Value()).(finalizers := M.Others(old(policy.finalizers))))
    {
      policy.RemoveFinalizer();
      err := Send(policy, seen, false, 0);
    }

    /** The last step of Reconcile: the error of Status().Update is only logged. */
    method ReportReady(policy: PolicyObject, seen: nat, now: int)
      requires Valid() && pc == M.Marking(seen) && Read(seen) == Some(policy.Value()) && !policy.deleting
      modifies this, policy
      ensures Ran() && pc == M.Idle
      ensures calm && seen == |old(past)| ==>
                && stored.Some? && stored == Some(old(policy.Value()).(conditions := stored.value.conditions))
                && ShowsReady(old(policy.conditions), stored.value.conditions, now)
    {
      MarkReadyShows(policy.conditions, now);
      policy.SetCondition("Ready", "True", "Reconciled", "Policy is active", now);
      var _ := Send(policy, seen, true, now);
    }

    /**
     * Reconcile.  reconcilePolicy does nothing and never fails, so its error branch is not
     * here.  In calm surroundings and with the stored version in the cache, the object that is
     * stored afterwards is the former one with one thing done.
     */
    method Reconcile(now: int) returns (err: bool)
      requires Valid() && pc == M.Started
      modifies this
      ensures Ran()
      ensures pc == if err then M.Failed else M.Idle
      ensures calm && old(cache) == |old(past)| ==> !err && Reconciled(old(stored), stored, now)
    {
      var r := Get();
      if r.NotFound? {
        return false;
      }
      if r.GetError? {
        return true;
      }
      var policy, seen := r.policy, r.seen;
      if policy.deleting {
        err := HandleDeletion(policy, seen);
        return;
      }
      if M.FINALIZER !in policy.finalizers {
        policy.AddFinalizer();
        err := Send(policy, seen, false, 0);
        return;
      }
      ReportReady(policy, seen, now);
      err := false;
    }

    /** The queue hands out the key. */
    method TakeKey()
      requires Valid() && pc == M.Idle && dirty
      modifies this`pc, this`dirty, this`trace
      ensures Ran() && pc == M.Started
    {
      ghost var s := State();
      pc, dirty := M.Started, false;
      Log(s, M.Take);
    }

    /** The key is put back, for later. */
    method RequeueKey()
      requires Valid() && pc == M.Failed
      modifies this`pc, this`retry, this`trace
      ensures Ran() && pc == M.Idle
    {
      ghost var s := State();
      pc, retry := M.Idle, true;
      Log(s, M.Requeue);
    }

    /**
     * The worker: takes the key, reconciles it, and puts it back later if that failed.
     * If it finds nothing pending afterwards, the object is as Reconcile wants it unless a
     * status write was lost.
     */
    method Work(now: int)
      requires Valid() && pc == M.Idle && dirty && Inv(start)
      modifies this
      ensures Ran() && pc == M.Idle
      ensures Calm(State()) ==> (Settled(stored) <==> !dropped)
    {
      TakeKey();
      var err := Reconcile(now);
      if err {
        RequeueKey();
      }
      InvRun(start, trace);
    }
  }
}
