/**
 * api/v1alpha1/zz_generated.deepcopy.go: copies that are equal and share nothing.
 *
 * An element of a Go slice of structs is a place in memory that DeepCopyInto is handed a
 * pointer to, so it is an object here.  A nil slice is null, or None for the items.
 * ObjectMeta and ListMeta, which a library copies, are plain values.
 */
module DeepCopy {
  import opened Api
  import opened Prelude

  const NO_CONDITION := Condition("", "", "", "", 0)

  /** As many zero values; nil stays nil. */
  function Blanked(cs: Option<seq<Condition>>): Option<seq<Condition>> {
    match cs
    case None => None
    case Some(s) => Some(seq(|s|, _ => NO_CONDITION))
  }

  class DeployPolicy {
    var meta: string
    var spec: PolicySpec
    var conditions: array?<Condition>

    /** The zero value. */
    constructor ()
      ensures meta == "" && spec == PolicySpec(false, false, false) && conditions == null
    {
      meta, spec, conditions := "", PolicySpec(false, false, false), null;
    }

    /** The contents of the conditions; nil differs from empty. */
    ghost function Conditions(): Option<seq<Condition>>
      reads this, conditions
    {
      if conditions == null then None else Some(conditions[..])
    }

    /**
     * DeepCopyInto: assign the struct, which shares the conditions, then give the copy an
     * array of its own.  Into itself, that array replaces the conditions before they are
     * read: they are all blanked.
     */
    method DeepCopyInto(out: DeployPolicy)
      modifies out
      ensures out != this ==> out.meta == meta && out.spec == spec && out.Conditions() == Conditions()
      ensures out == this ==> spec == old(spec) && Conditions() == Blanked(old(Conditions()))
      ensures out.conditions != null ==> fresh(out.conditions)
    {
      out.meta, out.spec, out.conditions := meta, spec, conditions;
      if conditions != null {
        out.conditions := new Condition[conditions.Length](_ => NO_CONDITION);
        forall i | 0 <= i < out.conditions.Length {
          out.conditions[i] := conditions[i];
        }
        assert out != this ==> out.conditions[..] == conditions[..];
        assert out == this ==> conditions[..] == seq(conditions.Length, _ => NO_CONDITION);
      }
    }
  }

  /** DeployPolicy.DeepCopy: nil stays nil. */
  method DeepCopyPolicy(p: DeployPolicy?) returns (out: DeployPolicy?)
    ensures out == null <==> p == null
    ensures p != null ==>
              && fresh(out) && out.meta == p.meta && out.spec == p.spec && out.Conditions() == p.Conditions()
              && (out.conditions != null ==> fresh(out.conditions))
  {
    if p == null {
      return null;
    }
    out := new DeployPolicy();
    p.DeepCopyInto(out);
  }

  // ---------- lists ----------

  predicate Distinct(ps: seq<DeployPolicy>) {
    forall i, j :: 0 <= i < j < |ps| ==> ps[i] != ps[j]
  }

  /** No two items share their conditions. */
  ghost predicate Apart(ps: seq<DeployPolicy>)
    reads ps
  {
    forall i, j :: 0 <= i < j < |ps| && ps[i].conditions != null ==> ps[i].conditions != ps[j].conditions
  }

  ghost function Arrays(ps: seq<DeployPolicy>): set<object>
    reads ps
  {
    set p | p in ps && p.conditions != null :: p.conditions as object
  }

  ghost predicate SameContents(p: DeployPolicy, q: DeployPolicy)
    reads p, q, p.conditions, q.conditions
  {
    q.meta == p.meta && q.spec == p.spec && q.Conditions() == p.Conditions()
  }

  /** The zero value, up to the metadata. */
  predicate IsZero(p: DeployPolicy)
    reads p
  {
    p.spec == PolicySpec(false, false, false) && p.conditions == null
  }

  /** make([]DeployPolicy, n): n zero values. */
  method Make(n: nat) returns (ps: seq<DeployPolicy>)
    ensures |ps| == n && fresh(ps) && Distinct(ps)
    ensures forall k :: 0 <= k < n ==> IsZero(ps[k])
  {
    ps := [];
    while |ps| < n
      invariant |ps| <= n && fresh(ps) && Distinct(ps)
      invariant forall k :: 0 <= k < |ps| ==> IsZero(ps[k])
    {
      var p := new DeployPolicy();
      ps := ps + [p];
    }
  }

  /** The loop of a list's DeepCopyInto, from items to other items or to themselves. */
  method CopyItems(ps: seq<DeployPolicy>, qs: seq<DeployPolicy>)
    requires |qs| == |ps| && Distinct(qs)
    requires ps == qs ==> forall k :: 0 <= k < |qs| ==> IsZero(qs[k])
    requires ps != qs ==> forall j, k :: 0 <= j < |ps| && 0 <= k < |qs| ==> ps[j] != qs[k]
    modifies qs
    ensures fresh(Arrays(qs)) && Apart(qs)
    ensures ps != qs ==> forall k :: 0 <= k < |ps| ==> SameContents(ps[k], qs[k])
    ensures ps == qs ==> forall k :: 0 <= k < |qs| ==> IsZero(qs[k])
  {
    for i := 0 to |ps|
      invariant ps != qs ==> forall k :: 0 <= k < i ==> SameContents(ps[k], qs[k])
      invariant ps == qs ==> forall k :: 0 <= k < |qs| ==> IsZero(qs[k])
      invariant forall k :: 0 <= k < i && qs[k].conditions != null ==> fresh(qs[k].conditions)
      invariant forall j, k :: 0 <= j < k < i && qs[j].conditions != null ==> qs[j].conditions != qs[k].conditions
    {
      ps[i].DeepCopyInto(qs[i]);
    }
  }

  class DeployPolicyList {
    var meta: string
    var items: Option<seq<DeployPolicy>>

    constructor ()
      ensures items == None
    {
      meta, items := "", None;
    }

    /**
     * DeepCopyInto: every item says the same; the items and their conditions are all new,
     * and no two of them share anything, even if items of the original did.  Into itself,
     * the new items replace the old ones before they are read: as many zero values are left.
     */
    method DeepCopyInto(out: DeployPolicyList)
      modifies out
      ensures out != this ==> out.meta == meta
      ensures out.items.Some? <==> old(items).Some?
      ensures out.items.Some? ==>
                var ps, qs := old(items).value, out.items.value;
                && |qs| == |ps| && fresh(qs) && Distinct(qs) && fresh(Arrays(qs)) && Apart(qs)
                && (out != this ==> forall k :: 0 <= k < |ps| ==> SameContents(ps[k], qs[k]))
                && (out == this ==> forall k :: 0 <= k < |ps| ==> IsZero(qs[k]))
    {
      out.meta, out.items := meta, items;
      if items.Some? {
        var qs := Make(|items.value|);
        out.items := Some(qs);
        CopyItems(items.value, qs);
      }
    }
  }

  /** DeployPolicyList.DeepCopy: nil stays nil. */
  method DeepCopyList(l: DeployPolicyList?) returns (out: DeployPolicyList?)
    ensures out == null <==> l == null
    ensures l != null ==> fresh(out) && out.meta == l.meta && (out.items.Some? <==> l.items.Some?)
    ensures l != null && l.items.Some? ==>
              var ps, qs := l.items.value, out.items.value;
              && |qs| == |ps| && fresh(qs) && Distinct(qs) && fresh(Arrays(qs)) && Apart(qs)
              && forall k :: 0 <= k < |ps| ==> SameContents(ps[k], qs[k])
  {
    if l == null {
      return null;
    }
    out := new DeployPolicyList();
    l.DeepCopyInto(out);
  }

  /** A write to one condition of one of several items that share none. */
  method SetCondition(qs: seq<DeployPolicy>, k: nat, j: nat, c: Condition)
    requires Apart(qs) && k < |qs| && qs[k].conditions != null && j < qs[k].conditions.Length
    modifies qs[k].conditions
    ensures qs[k].conditions[..] == old(qs[k].conditions[..])[j := c]
    ensures forall i :: 0 <= i < |qs| && i != k ==> qs[i].Conditions() == old(qs[i].Conditions())
  {
    assert forall i :: 0 <= i < |qs| && i != k && qs[i].conditions != null ==> qs[i].conditions != qs[k].conditions;
    qs[k].conditions[j] := c;
  }

  /**
   * A write to any condition of one item of a copy is seen by that item only: not by the
   * original, and by no other item of the copy.
   */
  method ChangeCopy(l: DeployPolicyList, k: nat, j: nat, c: Condition) returns (out: DeployPolicyList)
    requires l.items.Some? && k < |l.items.value|
    requires var p := l.items.value[k]; p.conditions != null && j < p.conditions.Length
    ensures out.items.Some? && |out.items.value| == |l.items.value|
    ensures forall i :: 0 <= i < |l.items.value| ==> l.items.value[i].Conditions() == old(l.items.value[i].Conditions())
    ensures forall i :: 0 <= i < |l.items.value| && i != k ==>
              out.items.value[i].Conditions() == l.items.value[i].Conditions()
    ensures out.items.value[k].Conditions() == Some(l.items.value[k].conditions[..][j := c])
  {
    out := new DeployPolicyList();
    l.DeepCopyInto(out);
    var ps, qs := l.items.value, out.items.value;
    assert forall i :: 0 <= i < |ps| ==> SameContents(ps[i], qs[i]);
    assert SameContents(ps[k], qs[k]);
    assert qs[k].conditions != null && qs[k].conditions in Arrays(qs);
    assert |qs[k].conditions[..]| == |ps[k].conditions[..]|;
    SetCondition(qs, k, j, c);
  }

  /** A write to any condition of the original, once it is copied, is not seen by the copy. */
  method ChangeOriginal(l: DeployPolicyList, k: nat, j: nat, c: Condition) returns (out: DeployPolicyList)
    requires l.items.Some? && k < |l.items.value|
    requires var p := l.items.value[k]; p.conditions != null && j < p.conditions.Length
    modifies l.items.value[k].conditions
    ensures l.items.value[k].conditions[..] == old(l.items.value[k].conditions[..])[j := c]
    ensures out.items.Some? && |out.items.value| == |l.items.value|
    ensures forall i :: 0 <= i < |l.items.value| ==>
              out.items.value[i].Conditions() == old(l.items.value[i].Conditions())
  {
    out := new DeployPolicyList();
    l.DeepCopyInto(out);
    var ps, qs, a := l.items.value, out.items.value, l.items.value[k].conditions;
    assert forall i :: 0 <= i < |ps| ==> SameContents(ps[i], qs[i]);
    assert forall i :: 0 <= i < |qs| ==> qs[i].conditions != a by {
      assert forall i :: 0 <= i < |qs| && qs[i].conditions != null ==> qs[i].conditions in Arrays(qs);
    }
    label Copied:
    a[j] := c;
    assert forall i :: 0 <= i < |qs| ==> qs[i].Conditions() == old@Copied(qs[i].Conditions());
  }
}
