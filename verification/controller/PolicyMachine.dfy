/**
 * One DeployPolicy key in the API server, the informer cache and work queue that feed the
 * controller, and Reconcile (internal/controller/deploypolicy_controller.go) cut at its
 * read and its write, as a small-step machine.
 *
 * Assumed of the libraries: the API server accepts an update only of the stored version,
 * does not create a version for an update that changes nothing, removes a deleting object
 * with its last finalizer and takes no new finalizer for one; the cache shows versions in
 * order but may lag and skip; the work queue holds a key at most once and does not hand it
 * out while it is being processed.
 */
module PolicyMachine {
  import opened Api
  import opened Prelude

  const FINALIZER := "deployguard.io/policy-finalizer"

  datatype Policy = Policy(
    uid: nat,
    finalizers: seq<string>,
    deleting: bool,
    conditions: seq<Condition>,
    spec: PolicySpec)

  // ---------- library helpers on one object ----------

  /** controllerutil.AddFinalizer. */
  function AddFinalizer(fs: seq<string>): seq<string> {
    if FINALIZER in fs then fs else fs + [FINALIZER]
  }

  /** controllerutil.RemoveFinalizer: every occurrence goes, the others keep their order. */
  function Others(fs: seq<string>): seq<string> {
    if fs == [] then []
    else if fs[0] == FINALIZER then Others(fs[1..])
    else [fs[0]] + Others(fs[1..])
  }

  /** The place of the first condition of a kind, |cs| if there is none. */
  function Find(cs: seq<Condition>, kind: string): (i: nat)
    ensures i <= |cs|
    ensures i < |cs| ==> cs[i].kind == kind
    ensures forall k :: 0 <= k < i ==> cs[k].kind != kind
  {
    if cs == [] || cs[0].kind == kind then 0 else 1 + Find(cs[1..], kind)
  }

  /** meta.SetStatusCondition: the time moves only when the status does. */
  function SetStatusCondition(cs: seq<Condition>, c: Condition): seq<Condition> {
    var i := Find(cs, c.kind);
    if i == |cs| then cs + [c]
    else cs[i := if cs[i].status == c.status then c.(since := cs[i].since) else c]
  }

  function ReadyCondition(now: int): Condition {
    Condition("Ready", "True", "Reconciled", "Policy is active", now)
  }

  function MarkReady(cs: seq<Condition>, now: int): seq<Condition> {
    SetStatusCondition(cs, ReadyCondition(now))
  }

  // ---------- the machine ----------

  /** seen is the version that was read from the cache; Failed: an error was returned. */
  datatype Pc =
    | Idle
    | Started
    | Adding(seen: nat)
    | Removing(seen: nat)
    | Marking(seen: nat)
    | Failed

  /**
   * stored is the object in the API server (None: not there) and past lists its former
   * versions; a version's place in past + [stored] is its resourceVersion.  The cache shows version cache; notices are
   * watch events not yet handed to the queue; dirty says that the queue holds the key, and
   * retry that it will after a back-off.  dropped says that the last status write for the
   * stored version failed otherwise than by conflict.
   */
  datatype Machine = Machine(
    past: seq<Option<Policy>>,
    stored: Option<Policy>,
    cache: nat,
    notices: nat,
    dirty: bool,
    retry: bool,
    pc: Pc,
    dropped: bool)

  datatype Label =
    | Create(policy: Policy)
    | Edit(policy: Policy)
    | Delete
    | Observe(version: nat)
    | Deliver
    | RetryDue
    | Take
    | Read
    | ReadError
    | Write(now: int)
    | WriteTimeout(now: int)
    | WriteError
    | Requeue
    | Resync
    | Restart(version: nat)

  function Versions(s: Machine): (vs: seq<Option<Policy>>)
    ensures |vs| == |s.past| + 1
  {
    s.past + [s.stored]
  }

  function Latest(s: Machine): nat {
    |s.past|
  }

  /** What the API server makes of an accepted update to p. */
  function Settle(p: Policy): Option<Policy> {
    if p.deleting && p.finalizers == [] then None else Some(p)
  }

  function Commit(s: Machine, p: Option<Policy>): Machine {
    if p == s.stored then s else s.(past := Versions(s), stored := p, dropped := false)
  }

  // ---------- Reconcile ----------

  /** Lines 51 to 98: what the cached object calls for. */
  function Decide(seen: nat, p: Option<Policy>): Pc {
    match p
    case None => Idle
    case Some(q) =>
      if q.deleting then Removing(seen)
      else if FINALIZER !in q.finalizers then Adding(seen)
      else Marking(seen)
  }

  /** The object that is sent: the one read, changed in one field. */
  function Outgoing(pc: Pc, p: Policy, now: int): Policy {
    match pc
    case Adding(_) => p.(finalizers := AddFinalizer(p.finalizers))
    case Removing(_) => p.(finalizers := Others(p.finalizers))
    case Marking(_) => p.(conditions := MarkReady(p.conditions, now))
    case _ => p
  }

  predicate Writing(pc: Pc) {
    pc.Adding? || pc.Removing? || pc.Marking?
  }

  /** The API server accepts the write only if the version read is the stored one. */
  predicate Accepted(s: Machine) {
    Writing(s.pc) && s.pc.seen == Latest(s) && s.stored.Some?
  }

  function Written(s: Machine, now: int): Machine
    requires Accepted(s)
  {
    Commit(s, Settle(Outgoing(s.pc, s.stored.value, now)))
  }

  /** An error of Update is returned, one of Status().Update is only logged. */
  function GiveUp(s: Machine): Machine {
    s.(pc := if s.pc.Marking? then Idle else Failed)
  }

  // ---------- what others may do ----------

  predicate NewUid(s: Machine, uid: nat) {
    forall v | v in Versions(s) && v.Some? :: v.value.uid != uid
  }

  /** A user's or another controller's update of the object. */
  predicate Allowed(p: Policy, q: Policy) {
    && q.uid == p.uid && q.deleting == p.deleting
    && (p.deleting ==> forall f | f in q.finalizers :: f in p.finalizers)
  }

  /** The Ready condition says what Reconcile makes it say. */
  predicate Marked(cs: seq<Condition>) {
    var i := Find(cs, "Ready");
    i < |cs| && cs[i] == ReadyCondition(cs[i].since)
  }

  /** A status write of the stored version that would have changed it. */
  predicate LostMark(s: Machine) {
    s.pc.Marking? && Accepted(s) && !Marked(s.stored.value.conditions)
  }

  function Next(s: Machine, l: Label): Option<Machine> {
    match l
    case Create(p) =>
      if s.stored.None? && NewUid(s, p.uid) && !p.deleting then Some(Commit(s, Some(p))) else None
    case Edit(q) =>
      if s.stored.Some? && Allowed(s.stored.value, q) then Some(Commit(s, Settle(q))) else None
    case Delete =>
      if s.stored.Some? then Some(Commit(s, Settle(s.stored.value.(deleting := true)))) else None
    case Observe(v) =>
      if s.cache < v <= Latest(s) then Some(s.(cache := v, notices := s.notices + 1)) else None
    case Resync => Some(s.(notices := s.notices + 1))
    case Deliver =>
      if s.notices > 0 then Some(s.(notices := s.notices - 1, dirty := true)) else None
    case RetryDue => if s.retry then Some(s.(retry := false, dirty := true)) else None
    case Take => if s.pc.Idle? && s.dirty then Some(s.(pc := Started, dirty := false)) else None
    case Read =>
      if s.pc.Started? && s.cache <= Latest(s) then Some(s.(pc := Decide(s.cache, Versions(s)[s.cache]))) else None
    case ReadError => if s.pc.Started? then Some(s.(pc := Failed)) else None
    case Write(now) =>
      if !Writing(s.pc) then None
      else if Accepted(s) then Some(Written(s, now).(pc := Idle))
      else Some(GiveUp(s))
    case WriteTimeout(now) =>
      // the API server accepted, but the client saw an error
      if Accepted(s) then Some(GiveUp(Written(s, now))) else None
    case WriteError =>
      if Writing(s.pc) then Some(GiveUp(s).(dropped := s.dropped || LostMark(s))) else None
    case Requeue => if s.pc.Failed? then Some(s.(pc := Idle, retry := true)) else None
    case Restart(v) =>
      // the new process lists the object, perhaps as it was, and forgets everything else
      if v <= Latest(s) then
        var notices := if Versions(s)[v].Some? then 1 else 0;
        Some(s.(cache := v, notices := notices, dirty := false, retry := false, pc := Idle))
      else None
  }

  lemma VersionsKept(s: Machine, l: Label)
    requires Next(s, l).Some?
    ensures Versions(s) <= Versions(Next(s, l).value)
  {}

  /** An accepted write, with its answer and without. */
  lemma AfterWrite(s: Machine, now: int)
    requires Accepted(s)
    ensures Next(s, Write(now)) == Some(Written(s, now).(pc := Idle))
    ensures Next(s, WriteTimeout(now)) == Some(Written(s, now).(pc := if s.pc.Marking? then Idle else Failed))
  {}

  // ---------- runs ----------

  /** Nothing was ever stored under the key, and the controller has just started. */
  const INITIAL := Machine([], None, 0, 0, false, false, Idle, false)

  function Exec(s: Machine, ls: seq<Label>): Option<Machine> {
    if ls == [] then Some(s)
    else
      match Exec(s, ls[..|ls| - 1])
      case None => None
      case Some(t) => Next(t, ls[|ls| - 1])
  }

  lemma ExecSnoc(s: Machine, ls: seq<Label>, l: Label)
    requires Exec(s, ls).Some?
    ensures Exec(s, ls + [l]) == Next(Exec(s, ls).value, l)
  {
    assert (ls + [l])[..|ls|] == ls;
  }
}
