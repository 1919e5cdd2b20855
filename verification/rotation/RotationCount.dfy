/**
 * How often the 24h ticker renews the certificate when nothing fails: every 335 or 336
 * ticks, and which of the two, exactly.
 */
module RotationCount {
  import opened Prelude
  import opened RotationMachine
  import opened RotationExpiry

  /** The code's ticker; the work on a tick is done delay after it, nothing fails or restarts. */
  function Daily(delay: nat): Schedule {
    Schedule(DAY, delay, 0, 0, 0)
  }

  /** No call fails and nobody deletes the Secret; crashes do not fit the schedule anyway. */
  predicate Quiet(l: Label) {
    !l.Fail? && !l.DropSecret?
  }

  predicate AllQuiet(ls: seq<Label>) {
    forall l | l in ls :: Quiet(l)
  }

  function Ticks(ls: seq<Label>): nat {
    if ls == [] then 0 else Ticks(ls[..|ls| - 1]) + if ls[|ls| - 1].Tick? then 1 else 0
  }

  // ---------- the diary of a run ----------

  /** When a tick looked at the certificate, and when it made a new one, if it did. */
  datatype Entry = Entry(check: int, made: Option<int>)

  function Note(v: Watch, l: Label, d: seq<Entry>): seq<Entry> {
    if l.Do? && v.s.pc.Check? then d + [Entry(v.s.now, None)]
    else if l.Do? && v.s.pc.Generate? && d != [] then d[|d| - 1 := d[|d| - 1].(made := Some(v.s.now))]
    else d
  }

  /** One entry per tick. */
  function Diary(w: Watch, ls: seq<Label>, p: Schedule): seq<Entry> {
    if ls == [] then []
    else
      var ls' := ls[..|ls| - 1];
      match Timed(w, ls', p)
      case None => []
      case Some(v) => Note(v, ls[|ls| - 1], Diary(w, ls', p))
  }

  /** The notAfter of the Secret's certificate after the ticks of d. */
  function Expiry(notAfter: int, d: seq<Entry>): int {
    if d == [] then notAfter
    else if d[|d| - 1].made.Some? then (d[|d| - 1].made.value + LIFETIME) / SECOND
    else Expiry(notAfter, d[..|d| - 1])
  }

  function Renewals(d: seq<Entry>): nat {
    if d == [] then 0 else Renewals(d[..|d| - 1]) + if d[|d| - 1].made.Some? then 1 else 0
  }

  /** Entry k is that of tick k + 1, which was due then. */
  function DueAt(start: int, k: nat): int {
    start + (k + 1) * DAY
  }

  /** Tick k + 1 was worked on in time; it renewed exactly if less than 30 days were left. */
  predicate LawfulAt(notAfter: int, d: seq<Entry>, start: int, delay: nat, k: nat)
    requires k < |d|
  {
    var e, due := d[k], DueAt(start, k);
    && due <= e.check <= due + delay
    && (e.made.Some? <==> Expiry(notAfter, d[..k]) * SECOND - e.check < THRESHOLD)
    && (e.made.Some? ==> e.check <= e.made.value <= due + delay)
  }

  predicate Lawful(notAfter: int, d: seq<Entry>, start: int, delay: nat) {
    forall k :: 0 <= k < |d| ==> LawfulAt(notAfter, d, start, delay, k)
  }

  // ---------- runs keep a lawful diary ----------

  /** The diary d is up to date: it explains the certificate in the Secret. */
  predicate Explains(s: Machine, d: seq<Entry>, v: Watch, delay: nat)
    requires s.secret.Some? && s.secret.value.crt.Cert?
  {
    && Lawful(s.secret.value.crt.notAfter, d, s.now, delay)
    && v.s.secret.Some? && v.s.secret.value.crt.Cert?
    && v.s.secret.value.crt.notAfter == Expiry(s.secret.value.crt.notAfter, d)
  }

  /** The last entry awaits the time of generation. */
  predicate Awaits(s: Machine, d: seq<Entry>, v: Watch, delay: nat)
    requires s.secret.Some? && s.secret.value.crt.Cert?
  {
    && d != [] && v.s.secret.Some?
    && var d', e := d[..|d| - 1], d[|d| - 1];
       && Lawful(s.secret.value.crt.notAfter, d', s.now, delay)
       && e.made.None? && DueAt(s.now, |d'|) <= e.check <= v.s.now
       && Expiry(s.secret.value.crt.notAfter, d') * SECOND - e.check < THRESHOLD
  }

  /** The new certificate is not in the Secret yet. */
  predicate Promises(s: Machine, d: seq<Entry>, v: Watch, m: Material, delay: nat)
    requires s.secret.Some? && s.secret.value.crt.Cert?
  {
    && Lawful(s.secret.value.crt.notAfter, d, s.now, delay)
    && v.s.secret.Some? && m.crt.Cert? && m.crt.notAfter == Expiry(s.secret.value.crt.notAfter, d)
  }

  predicate Follows(s: Machine, ticks: nat, d: seq<Entry>, v: Watch, delay: nat)
    requires s.secret.Some? && s.secret.value.crt.Cert?
  {
    && Timely(v, Daily(delay)) && !Starting(v.s.pc)
    && v.s.terms == CODE && v.s.nextGen == s.nextGen + Renewals(d)
    && v.due == s.now + ticks * DAY && ticks == |d| + (if v.s.pc.Load? || v.s.pc.Check? then 1 else 0)
    && match v.s.pc
       case Check(m) => Explains(s, d, v, delay) && v.s.secret == Some(m)
       case Generate(_) => Awaits(s, d, v, delay)
       case SaveGet(_, m) => Promises(s, d, v, m, delay)
       case SavePut(_, m, _) => Promises(s, d, v, m, delay)
       case _ => Explains(s, d, v, delay)
  }

  lemma LawfulSnoc(notAfter: int, d: seq<Entry>, e: Entry, start: int, delay: nat)
    requires Lawful(notAfter, d, start, delay) && LawfulAt(notAfter, d + [e], start, delay, |d|)
    ensures Lawful(notAfter, d + [e], start, delay)
  {
    var d' := d + [e];
    forall k | 0 <= k < |d'| ensures LawfulAt(notAfter, d', start, delay, k) {
      if k < |d| {
        assert LawfulAt(notAfter, d, start, delay, k) && d'[..k] == d[..k];
      }
    }
  }

  lemma FollowsCheck(s: Machine, ticks: nat, d: seq<Entry>, v: Watch, delay: nat)
    requires s.secret.Some? && s.secret.value.crt.Cert?
    requires Follows(s, ticks, d, v, delay) && v.s.pc.Check? && WatchNext(v, Do, Daily(delay)).Some?
    ensures Follows(s, ticks, Note(v, Do, d), WatchNext(v, Do, Daily(delay)).value, delay)
  {
    var d' := d + [Entry(v.s.now, None)];
    assert d'[..|d'| - 1] == d;
    if !Due(v.s.pc.m.crt, v.s.now, THRESHOLD) {
      LawfulSnoc(s.secret.value.crt.notAfter, d, Entry(v.s.now, None), s.now, delay);
    }
  }

  lemma FollowsGenerate(s: Machine, ticks: nat, d: seq<Entry>, v: Watch, delay: nat)
    requires s.secret.Some? && s.secret.value.crt.Cert?
    requires Follows(s, ticks, d, v, delay) && v.s.pc.Generate? && WatchNext(v, Do, Daily(delay)).Some?
    ensures Follows(s, ticks, Note(v, Do, d), WatchNext(v, Do, Daily(delay)).value, delay)
  {
    var before, e := d[..|d| - 1], d[|d| - 1].(made := Some(v.s.now));
    var d' := Note(v, Do, d);
    assert d' == before + [e] && d'[..|d'| - 1] == before;
    LawfulSnoc(s.secret.value.crt.notAfter, before, e, s.now, delay);
  }

  lemma FollowsDo(s: Machine, ticks: nat, d: seq<Entry>, v: Watch, delay: nat)
    requires s.secret.Some? && s.secret.value.crt.Cert?
    requires Follows(s, ticks, d, v, delay) && WatchNext(v, Do, Daily(delay)).Some?
    requires !v.s.pc.Check? && !v.s.pc.Generate?
    ensures Follows(s, ticks, d, WatchNext(v, Do, Daily(delay)).value, delay)
  {
    TermsKept(v.s, Do);
  }

  lemma FollowsOther(s: Machine, ticks: nat, d: seq<Entry>, v: Watch, l: Label, delay: nat)
    requires s.secret.Some? && s.secret.value.crt.Cert?
    requires Follows(s, ticks, d, v, delay) && Quiet(l) && WatchNext(v, l, Daily(delay)).Some? && !l.Do?
    ensures Follows(s, ticks + (if l.Tick? then 1 else 0), d, WatchNext(v, l, Daily(delay)).value, delay)
  {
    TermsKept(v.s, l);
  }

  lemma FollowsNext(s: Machine, ticks: nat, d: seq<Entry>, v: Watch, l: Label, delay: nat)
    requires s.secret.Some? && s.secret.value.crt.Cert?
    requires Follows(s, ticks, d, v, delay) && Quiet(l) && WatchNext(v, l, Daily(delay)).Some?
    ensures Follows(s, ticks + (if l.Tick? then 1 else 0), Note(v, l, d), WatchNext(v, l, Daily(delay)).value, delay)
  {
    if l.Do? && v.s.pc.Check? {
      FollowsCheck(s, ticks, d, v, delay);
    } else if l.Do? && v.s.pc.Generate? {
      FollowsGenerate(s, ticks, d, v, delay);
    } else if l.Do? {
      FollowsDo(s, ticks, d, v, delay);
    } else {
      FollowsOther(s, ticks, d, v, l, delay);
    }
  }

  /** Waiting or starting a ticker, with 30 days left under the code's terms. */
  predicate Healthy(s: Machine) {
    StartsWell(s) && s.terms == CODE
  }

  lemma {:induction false} FollowsRun(s: Machine, ls: seq<Label>, delay: nat)
    requires Healthy(s) && AllQuiet(ls) && Timed(Started(s), ls, Daily(delay)).Some?
    ensures Follows(s, Ticks(ls), Diary(Started(s), ls, Daily(delay)), Timed(Started(s), ls, Daily(delay)).value, delay)
    decreases |ls|
  {
    if ls == [] {
    } else {
      var ls', l := ls[..|ls| - 1], ls[|ls| - 1];
      assert l in ls && forall l' | l' in ls' :: l' in ls;
      FollowsRun(s, ls', delay);
      var v := Timed(Started(s), ls', Daily(delay)).value;
      FollowsNext(s, Ticks(ls'), Diary(Started(s), ls', Daily(delay)), v, l, delay);
    }
  }

  // ---------- between two renewals ----------

  /** A time without its fraction of a second, which the encoding of a certificate drops. */
  function Cut(time: int): int {
    time / SECOND * SECOND
  }

  lemma {:induction false} ExpirySince(notAfter: int, d: seq<Entry>, i: nat, k: nat)
    requires i < k <= |d| && d[i].made.Some?
    requires forall j :: i < j < k ==> d[j].made.None?
    ensures Expiry(notAfter, d[..k]) * SECOND == Cut(d[i].made.value) + LIFETIME
    decreases k
  {
    assert d[..k][..k - 1] == d[..k - 1];
    if k == i + 1 {
      assert (d[i].made.value + LIFETIME) / SECOND * SECOND == Cut(d[i].made.value) + LIFETIME;
    } else {
      ExpirySince(notAfter, d, i, k - 1);
    }
  }

  lemma {:induction false} NoneFor334(notAfter: int, d: seq<Entry>, start: int, delay: nat, i: nat, k: nat)
    requires Lawful(notAfter, d, start, delay) && delay + SECOND <= DAY
    requires i < k < |d| && k < i + 335 && d[i].made.Some?
    ensures forall j :: i < j <= k ==> d[j].made.None?
    decreases k
  {
    if k == i + 1 {
    } else {
      NoneFor334(notAfter, d, start, delay, i, k - 1);
    }
    ExpirySince(notAfter, d, i, k);
    assert LawfulAt(notAfter, d, start, delay, i) && LawfulAt(notAfter, d, start, delay, k);
  }

  /**
   * After a renewal no tick renews for 334 ticks; the 335th does exactly if it is checked
   * later in its day than the whole second of the generation; otherwise the 336th does.
   */
  predicate SpacedAt(d: seq<Entry>, i: nat)
    requires i < |d|
  {
    d[i].made.Some? ==>
      && (forall k :: i < k < |d| && k < i + 335 ==> d[k].made.None?)
      && (i + 335 < |d| ==> (d[i + 335].made.Some? <==> d[i + 335].check - 335 * DAY > Cut(d[i].made.value)))
      && (i + 336 < |d| && d[i + 335].made.None? ==> d[i + 336].made.Some?)
  }

  lemma Interval(notAfter: int, d: seq<Entry>, start: int, delay: nat, i: nat)
    requires Lawful(notAfter, d, start, delay) && delay + SECOND <= DAY
    requires i < |d| && d[i].made.Some?
    ensures SpacedAt(d, i)
  {
    assert LawfulAt(notAfter, d, start, delay, i);
    if i + 1 < |d| {
      NoneFor334(notAfter, d, start, delay, i, if |d| <= i + 335 then |d| - 1 else i + 334);
    }
    if i + 335 < |d| {
      ExpirySince(notAfter, d, i, i + 335);
      assert LawfulAt(notAfter, d, start, delay, i + 335);
    }
    if i + 336 < |d| && d[i + 335].made.None? {
      ExpirySince(notAfter, d, i, i + 336);
      assert LawfulAt(notAfter, d, start, delay, i + 336);
    }
  }

  /** Renewals among the entries from i on. */
  function RenewalsFrom(d: seq<Entry>, i: nat): nat
    requires i <= |d|
    decreases |d| - i
  {
    if i == |d| then 0 else (if d[i].made.Some? then 1 else 0) + RenewalsFrom(d, i + 1)
  }

  lemma {:induction false} RenewalsSplit(d: seq<Entry>, i: nat)
    requires i <= |d|
    ensures Renewals(d) == Renewals(d[..i]) + RenewalsFrom(d, i)
    decreases |d| - i
  {
    if i == |d| {
      assert d[..i] == d;
    } else {
      RenewalsSplit(d, i + 1);
      assert d[..i + 1][..i] == d[..i];
    }
  }

  lemma {:induction false} RenewalsSkip(d: seq<Entry>, i: nat, j: nat)
    requires i <= j <= |d|
    requires forall k :: i <= k < j ==> d[k].made.None?
    ensures RenewalsFrom(d, i) == RenewalsFrom(d, j)
    decreases j - i
  {
    if i == j {
    } else {
      RenewalsSkip(d, i + 1, j);
    }
  }

  /** After a renewal, n ticks renew at least n / 336 and at most n / 335 times. */
  lemma {:induction false} CountAfter(notAfter: int, d: seq<Entry>, start: int, delay: nat, i: nat)
    requires Lawful(notAfter, d, start, delay) && delay + SECOND <= DAY
    requires i < |d| && d[i].made.Some?
    ensures var n := |d| - 1 - i; n / 336 <= RenewalsFrom(d, i + 1) <= n / 335
    decreases |d| - i
  {
    var n := |d| - 1 - i;
    Interval(notAfter, d, start, delay, i);
    if n < 335 {
      RenewalsSkip(d, i + 1, |d|);
    } else if d[i + 335].made.Some? {
      RenewalsSkip(d, i + 1, i + 335);
      CountAfter(notAfter, d, start, delay, i + 335);
    } else if n == 335 {
      RenewalsSkip(d, i + 1, |d|);
    } else {
      RenewalsSkip(d, i + 1, i + 336);
      CountAfter(notAfter, d, start, delay, i + 336);
    }
  }

  // ---------- the first renewal ----------

  /** The first tick that is sure to renew a certificate with so much time left at the start. */
  function SureTick(left: int): int {
    (left - THRESHOLD) / DAY + 1
  }

  lemma {:induction false} ExpiryBefore(notAfter: int, d: seq<Entry>, k: nat)
    requires k <= |d| && forall j :: 0 <= j < k ==> d[j].made.None?
    ensures Expiry(notAfter, d[..k]) == notAfter
    decreases k
  {
    if k == 0 {
    } else {
      ExpiryBefore(notAfter, d, k - 1);
      assert d[..k][..k - 1] == d[..k - 1];
    }
  }

  lemma {:induction false} NoneAtFirst(notAfter: int, d: seq<Entry>, start: int, delay: nat, n: nat)
    requires Lawful(notAfter, d, start, delay) && delay + SECOND <= DAY
    requires n <= |d| && (n > 0 ==> n <= SureTick(notAfter * SECOND - start) - 2)
    ensures forall j :: 0 <= j < n ==> d[j].made.None?
    decreases n
  {
    if n == 0 {
    } else {
      NoneAtFirst(notAfter, d, start, delay, n - 1);
      ExpiryBefore(notAfter, d, n - 1);
      assert LawfulAt(notAfter, d, start, delay, n - 1);
    }
  }

  /**
   * The first renewal is at the sure tick, or at the one before, and there exactly if that
   * one is checked with less than 30 days left.
   */
  lemma FirstRenewal(notAfter: int, d: seq<Entry>, start: int, delay: nat)
    requires Lawful(notAfter, d, start, delay) && delay + SECOND <= DAY
    requires notAfter * SECOND - start >= THRESHOLD
    ensures var t := SureTick(notAfter * SECOND - start);
            && t >= 1
            && (forall k :: 0 <= k < |d| && k < t - 2 ==> d[k].made.None?)
            && (2 <= t <= |d| + 1 ==> (d[t - 2].made.Some? <==> notAfter * SECOND - d[t - 2].check < THRESHOLD))
            && (t <= |d| && (t == 1 || d[t - 2].made.None?) ==> d[t - 1].made.Some?)
  {
    var t := SureTick(notAfter * SECOND - start);
    var n := if t <= 2 then 0 else if |d| <= t - 2 then |d| else t - 2;
    NoneAtFirst(notAfter, d, start, delay, n);
    if 2 <= t <= |d| + 1 {
      ExpiryBefore(notAfter, d, t - 2);
      assert LawfulAt(notAfter, d, start, delay, t - 2);
    }
    if t <= |d| && (t == 1 || d[t - 2].made.None?) {
      ExpiryBefore(notAfter, d, t - 1);
      assert LawfulAt(notAfter, d, start, delay, t - 1);
    }
  }

  /** How many renewals there can have been after n ticks, if tick t is sure to renew. */
  predicate Between(t: int, n: nat, renewals: nat) {
    && (if n < t then 0 else 1 + (n - t) / 336) <= renewals
    && renewals <= (if n < t - 1 then 0 else 1 + (n - t + 1) / 335)
  }

  lemma CountFrom(notAfter: int, d: seq<Entry>, start: int, delay: nat, i: nat)
    requires Lawful(notAfter, d, start, delay) && delay + SECOND <= DAY
    requires i < |d| && d[i].made.Some? && forall k :: 0 <= k < i ==> d[k].made.None?
    ensures var n := |d| - 1 - i; 1 + n / 336 <= Renewals(d) <= 1 + n / 335
  {
    RenewalsSplit(d, 0);
    RenewalsSkip(d, 0, i);
    CountAfter(notAfter, d, start, delay, i);
  }

  lemma CountBetween(notAfter: int, d: seq<Entry>, start: int, delay: nat)
    requires Lawful(notAfter, d, start, delay) && delay + SECOND <= DAY
    requires notAfter * SECOND - start >= THRESHOLD
    ensures Between(SureTick(notAfter * SECOND - start), |d|, Renewals(d))
  {
    var t := SureTick(notAfter * SECOND - start);
    FirstRenewal(notAfter, d, start, delay);
    if 2 <= t <= |d| + 1 && d[t - 2].made.Some? {
      CountFrom(notAfter, d, start, delay, t - 2);
    } else if t <= |d| {
      CountFrom(notAfter, d, start, delay, t - 1);
    } else {
      RenewalsSplit(d, 0);
      RenewalsSkip(d, 0, |d|);
    }
  }

  // ---------- the theorems ----------

  /** The end of a tick, as far as the Secret is concerned. */
  function Decided(e: Entry): int {
    if e.made.Some? then e.made.value else e.check
  }

  /** After tick k + 1 at least 30 days are left. */
  predicate EnoughAt(notAfter: int, d: seq<Entry>, k: nat)
    requires k < |d|
  {
    THRESHOLD <= Expiry(notAfter, d[..k + 1]) * SECOND - Decided(d[k])
  }

  lemma ThirtyDaysLeft(notAfter: int, d: seq<Entry>, start: int, delay: nat, k: nat)
    requires Lawful(notAfter, d, start, delay) && k < |d|
    ensures EnoughAt(notAfter, d, k)
  {
    assert LawfulAt(notAfter, d, start, delay, k);
    assert d[..k + 1][..k] == d[..k];
  }

  /** The diary of a run, and what it says about the state reached. */
  predicate Kept(s: Machine, ls: seq<Label>, t: Machine, d: seq<Entry>)
    requires Healthy(s)
  {
    && |d| == Ticks(ls) && t.nextGen == s.nextGen + Renewals(d)
    && t.secret.Some? && t.secret.value.crt.Cert?
    && t.secret.value.crt.notAfter == Expiry(s.secret.value.crt.notAfter, d)
  }

  /** Every entry leaves enough time, and every renewal waits for its turn. */
  predicate Regular(notAfter: int, d: seq<Entry>) {
    forall i :: 0 <= i < |d| ==> EnoughAt(notAfter, d, i) && SpacedAt(d, i)
  }

  lemma LawfulIsRegular(notAfter: int, d: seq<Entry>, start: int, delay: nat)
    requires Lawful(notAfter, d, start, delay) && delay + SECOND <= DAY
    ensures Regular(notAfter, d)
  {
    forall i | 0 <= i < |d| ensures EnoughAt(notAfter, d, i) && SpacedAt(d, i) {
      ThirtyDaysLeft(notAfter, d, start, delay, i);
      if d[i].made.Some? {
        Interval(notAfter, d, start, delay, i);
      }
    }
  }

  lemma KeptByRun(s: Machine, ls: seq<Label>, delay: nat)
    requires Healthy(s) && AllQuiet(ls) && Timed(Started(s), ls, Daily(delay)).Some?
    requires !Ticking(Timed(Started(s), ls, Daily(delay)).value.s.pc)
    ensures var d := Diary(Started(s), ls, Daily(delay));
            && Kept(s, ls, Timed(Started(s), ls, Daily(delay)).value.s, d)
            && Lawful(s.secret.value.crt.notAfter, d, s.now, delay)
  {
    FollowsRun(s, ls, delay);
  }

  lemma Summary(s: Machine, ls: seq<Label>, t: Machine, d: seq<Entry>, delay: nat)
    requires Healthy(s) && delay + SECOND <= DAY
    requires Kept(s, ls, t, d) && Lawful(s.secret.value.crt.notAfter, d, s.now, delay)
    ensures Between(SureTick(Left(s.secret.value.crt, s.now)), Ticks(ls), t.nextGen - s.nextGen)
    ensures Regular(s.secret.value.crt.notAfter, d)
  {
    CountBetween(s.secret.value.crt.notAfter, d, s.now, delay);
    LawfulIsRegular(s.secret.value.crt.notAfter, d, s.now, delay);
  }

  /**
   * A run of the 24h ticker in which no call fails, with any delays in between, as long as
   * each tick is worked on within a day less a second.  After n ticks the number of renewals
   * is between two bounds given by the time left at the start, after every tick at least 30
   * days are left, and two renewals are 335 or 336 ticks apart.
   */
  lemma RotatesEvery335Or336Days(s: Machine, ls: seq<Label>, delay: nat)
    requires Healthy(s) && delay + SECOND <= DAY
    requires AllQuiet(ls) && Timed(Started(s), ls, Daily(delay)).Some?
    requires !Ticking(Timed(Started(s), ls, Daily(delay)).value.s.pc)
    ensures var t, d := Timed(Started(s), ls, Daily(delay)).value.s, Diary(Started(s), ls, Daily(delay));
            var crt := s.secret.value.crt;
            && Kept(s, ls, t, d)
            && Between(SureTick(Left(crt, s.now)), Ticks(ls), t.nextGen - s.nextGen)
            && Regular(crt.notAfter, d)
  {
    KeptByRun(s, ls, delay);
    Summary(s, ls, Timed(Started(s), ls, Daily(delay)).value.s, Diary(Started(s), ls, Daily(delay)), delay);
  }

  // ---------- ticks that are worked on in no time ----------

  /** Renewals every so many ticks: the encoding costs a day unless the clock shows a whole second. */
  function Cycle(start: int): nat {
    if start % SECOND == 0 then 336 else 335
  }

  /** The number of renewals after n ticks. */
  function Punctual(left: int, start: int, n: nat): int {
    if n < SureTick(left) then 0 else 1 + (n - SureTick(left)) / Cycle(start)
  }

  lemma CutOnDays(start: int, k: int)
    ensures Cut(start + k * DAY) == Cut(start) + k * DAY
    ensures Cut(start) == start <==> start % SECOND == 0
  {
    assert k * DAY == (k * 86400) * SECOND;
    assert (start + (k * 86400) * SECOND) / SECOND == start / SECOND + k * 86400;
  }

  /** Without delay every second renewal is one cycle after the one before. */
  lemma {:induction false} PunctualAfter(notAfter: int, d: seq<Entry>, start: int, i: nat)
    requires Lawful(notAfter, d, start, 0) && i < |d| && d[i].made.Some?
    ensures RenewalsFrom(d, i + 1) == (|d| - 1 - i) / Cycle(start)
    decreases |d| - i
  {
    var n, j := |d| - 1 - i, i + Cycle(start);
    Interval(notAfter, d, start, 0, i);
    assert LawfulAt(notAfter, d, start, 0, i);
    CutOnDays(start, i + 1);
    if i + 335 < |d| {
      assert LawfulAt(notAfter, d, start, 0, i + 335);
    }
    if n < Cycle(start) {
      RenewalsSkip(d, i + 1, |d|);
    } else {
      RenewalsSkip(d, i + 1, j);
      PunctualAfter(notAfter, d, start, j);
    }
  }

  lemma PunctualCount(notAfter: int, d: seq<Entry>, start: int)
    requires Lawful(notAfter, d, start, 0) && notAfter * SECOND - start >= THRESHOLD
    ensures Renewals(d) == Punctual(notAfter * SECOND - start, start, |d|)
  {
    var t := SureTick(notAfter * SECOND - start);
    FirstRenewal(notAfter, d, start, 0);
    if 2 <= t <= |d| + 1 {
      assert LawfulAt(notAfter, d, start, 0, t - 2);
    }
    RenewalsSplit(d, 0);
    if t <= |d| {
      RenewalsSkip(d, 0, t - 1);
      PunctualAfter(notAfter, d, start, t - 1);
    } else {
      RenewalsSkip(d, 0, |d|);
    }
  }

  /** If every tick is worked on the moment it is due, the count is a function of the start. */
  lemma PunctualRuns(s: Machine, ls: seq<Label>)
    requires Healthy(s) && AllQuiet(ls) && Timed(Started(s), ls, Daily(0)).Some?
    requires !Ticking(Timed(Started(s), ls, Daily(0)).value.s.pc)
    ensures Timed(Started(s), ls, Daily(0)).value.s.nextGen - s.nextGen
         == Punctual(Left(s.secret.value.crt, s.now), s.now, Ticks(ls))
  {
    FollowsRun(s, ls, 0);
    PunctualCount(s.secret.value.crt.notAfter, Diary(Started(s), ls, Daily(0)), s.now);
  }

  // ---------- there are such runs ----------

  /** A quiet run that is over on the very moment of its last tick. */
  predicate Waits(s: Machine, ls: seq<Label>) {
    && AllQuiet(ls) && Timed(Started(s), ls, Daily(0)).Some?
    && var v := Timed(Started(s), ls, Daily(0)).value;
       v.s.pc.Idle? && v.s.now == v.due && v.s.config.Some?
  }

  /** The watch v after the check of m. */
  function Checked(v: Watch, m: Material): Watch {
    At(v, if Due(m.crt, v.s.now, v.s.terms.threshold) then Generate(Rotate) else Idle)
  }

  lemma CheckNext(v: Watch, p: Schedule, m: Material)
    requires v.s.pc == Check(m) && v.fails == v.restarts == 0 && Timely(v, p)
    ensures WatchNext(v, Do, p) == Some(Checked(v, m)) && Timely(Checked(v, m), p)
  {}

  /** A period passes, and the certificate is checked. */
  lemma CheckedDay(w: Watch, ls: seq<Label>, p: Schedule, v: Watch) returns (ls': seq<Label>)
    requires Timed(w, ls, p) == Some(v) && Timely(v, p)
    requires v.s.pc.Idle? && v.s.now == v.due && v.fails == v.restarts == 0 && v.s.secret.Some?
    ensures var v' := Checked(NextDay(v, p), v.s.secret.value); Timed(w, ls', p) == Some(v') && Timely(v', p)
    ensures forall l | l in ls' :: l in ls || Quiet(l)
  {
    var m := v.s.secret.value;
    var a := NextTick(w, ls, p, v);
    var u := NextDay(v, p);
    LoadNext(u, p);
    Extend(w, a, p, u, Do, At(u, Check(m)));
    CheckNext(At(u, Check(m)), p, m);
    Extend(w, a + [Do], p, At(u, Check(m)), Do, Checked(u, m));
    ls' := a + [Do] + [Do];
  }

  /** The check, and the renewal if there is one. */
  lemma WholeDay(w: Watch, ls: seq<Label>, p: Schedule, v: Watch) returns (ls': seq<Label>)
    requires Timed(w, ls, p) == Some(v) && Timely(v, p)
    requires v.s.pc.Idle? && v.s.now == v.due && v.fails == v.restarts == 0 && v.s.secret.Some? && v.s.config.Some?
    ensures Timed(w, ls', p).Some?
    ensures var v' := Timed(w, ls', p).value;
            v'.s.pc.Idle? && v'.s.now == v'.due == v.due + p.period && v'.s.config.Some?
    ensures forall l | l in ls' :: l in ls || Quiet(l)
  {
    ls' := CheckedDay(w, ls, p, v);
    var u := Timed(w, ls', p).value;
    if u.s.pc.Generate? {
      ls' := Renew(w, ls', p, u);
    }
  }

  lemma WaitsMeans(s: Machine, ls: seq<Label>)
    requires Healthy(s) && Waits(s, ls)
    ensures var v := Timed(Started(s), ls, Daily(0)).value;
            && v.fails == v.restarts == 0 && Timely(v, Daily(0)) && v.s.secret.Some?
            && v.due == s.now + Ticks(ls) * DAY
  {
    FollowsRun(s, ls, 0);
  }

  lemma StaysQuiet(ls: seq<Label>, ls': seq<Label>)
    requires AllQuiet(ls) && forall l | l in ls' :: l in ls || Quiet(l)
    ensures AllQuiet(ls')
  {}

  lemma OneTickMore(a: nat, b: nat)
    ensures b * DAY == a * DAY + DAY ==> b == a + 1
  {}

  lemma PunctualDay(s: Machine, ls: seq<Label>) returns (ls': seq<Label>)
    requires Healthy(s) && Waits(s, ls)
    ensures Waits(s, ls') && Ticks(ls') == Ticks(ls) + 1
  {
    WaitsMeans(s, ls);
    ls' := WholeDay(Started(s), ls, Daily(0), Timed(Started(s), ls, Daily(0)).value);
    StaysQuiet(ls, ls');
    WaitsMeans(s, ls');
    OneTickMore(Ticks(ls), Ticks(ls'));
  }

  /** Punctual runs of every length exist, so that the count above is one of runs. */
  lemma {:induction false} PunctualRun(s: Machine, n: nat) returns (ls: seq<Label>)
    requires Healthy(s) && s.config.Some?
    ensures Waits(s, ls) && Ticks(ls) == n
    ensures Timed(Started(s), ls, Daily(0)).value.s.nextGen - s.nextGen
         == Punctual(Left(s.secret.value.crt, s.now), s.now, n)
    decreases n
  {
    if n == 0 {
      ls := [];
    } else {
      ls := PunctualRun(s, n - 1);
      ls := PunctualDay(s, ls);
    }
    PunctualRuns(s, ls);
  }

  // ---------- floor(n / 336) ----------

  /** n punctual ticks without a fault have renewed floor(n / 336) times. */
  predicate FloorOf336(s: Machine, ls: seq<Label>)
    requires Healthy(s)
  {
    var v := Timed(Started(s), ls, Daily(0));
    AllQuiet(ls) && v.Some? && !Ticking(v.value.s.pc) ==> v.value.s.nextGen - s.nextGen == Ticks(ls) / 336
  }

  lemma FullTimeLeft(s: Machine, ls: seq<Label>)
    requires Healthy(s) && Left(s.secret.value.crt, s.now) == LIFETIME
    ensures FloorOf336(s, ls)
  {
    var v := Timed(Started(s), ls, Daily(0));
    assert s.now % SECOND == 0 && SureTick(LIFETIME) == 336;
    if AllQuiet(ls) && v.Some? && !Ticking(v.value.s.pc) {
      PunctualRuns(s, ls);
    }
  }

  lemma LessTimeLeft(left: int, start: int)
    requires left < LIFETIME
    ensures Punctual(left, start, 335) >= 1
  {
    assert SureTick(left) <= 335;
  }

  /**
   * All punctual runs renew floor(n / 336) times in n ticks if and only if the certificate
   * has its full 365 days left when the ticker is started.
   */
  lemma RotatesEvery336DaysIff(s: Machine)
    requires Healthy(s) && Left(s.secret.value.crt, s.now) <= LIFETIME && s.config.Some?
    ensures (forall ls :: FloorOf336(s, ls)) <==> Left(s.secret.value.crt, s.now) == LIFETIME
  {
    var left := Left(s.secret.value.crt, s.now);
    if left == LIFETIME {
      forall ls ensures FloorOf336(s, ls) {
        FullTimeLeft(s, ls);
      }
    } else {
      var ls := PunctualRun(s, 335);
      LessTimeLeft(left, s.now);
      assert !FloorOf336(s, ls);
    }
  }
}
