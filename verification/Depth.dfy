// The depth of a member inside its group, capped at the size of the group, and
// the order it gives.
module Depth {
  import opened Model
  import opened ProcGraph
  import Orbit

  // The parent inside the group.
  function ParentIn(group: map<nat, ProcEntry>): ProcEntry -> Option<ProcEntry> {
    (e: ProcEntry) => if e.ppid in group then Some(group[e.ppid]) else None
  }

  // The ancestor k links up inside the group, if the chain is that long.
  ghost function Ancestor(group: map<nat, ProcEntry>, e: ProcEntry, k: nat): Option<ProcEntry> {
    Orbit.At(ParentIn(group), e, k)
  }

  // The chain of e inside the group comes to an end.
  ghost predicate Acyclic(group: map<nat, ProcEntry>, e: ProcEntry) {
    Orbit.Halts(ParentIn(group), e)
  }

  // The number of links up the chain of e, counting no further than cap.
  function CappedDepth(group: map<nat, ProcEntry>, e: ProcEntry, cap: nat): nat
    decreases cap
  {
    if cap == 0 || e.ppid !in group then 0 else 1 + CappedDepth(group, group[e.ppid], cap - 1)
  }

  function DepthIn(group: map<nat, ProcEntry>, e: ProcEntry): nat {
    CappedDepth(group, e, |group|)
  }

  // Below the cap the count is exact: the chain has that many links and no more.
  lemma {:induction false} CappedDepthCounts(group: map<nat, ProcEntry>, e: ProcEntry, cap: nat)
    ensures var d := CappedDepth(group, e, cap);
      d <= cap && Ancestor(group, e, d).Some? && (d < cap ==> Ancestor(group, e, d + 1) == None)
    decreases cap
  {
    if cap > 0 && e.ppid in group {
      CappedDepthCounts(group, group[e.ppid], cap - 1);
      var d := CappedDepth(group, group[e.ppid], cap - 1);
      Orbit.Shift(ParentIn(group), e, d);
      Orbit.Shift(ParentIn(group), e, d + 1);
    } else {
      Orbit.Shift(ParentIn(group), e, 0);
    }
  }

  // A chain has one length only.
  lemma ChainLengthUnique(group: map<nat, ProcEntry>, e: ProcEntry, m: nat, n: nat)
    requires Ancestor(group, e, m).Some? && Ancestor(group, e, m + 1) == None
    requires Ancestor(group, e, n).Some? && Ancestor(group, e, n + 1) == None
    ensures m == n
  {
    if m < n {
      Orbit.NoneForever(ParentIn(group), e, m + 1, n);
    } else if n < m {
      Orbit.NoneForever(ParentIn(group), e, n + 1, m);
    }
  }

  lemma {:induction false} ValuesAsManyAsKeys(group: map<nat, ProcEntry>)
    requires Keyed(group)
    ensures |group.Values| == |group|
    decreases |group|
  {
    if pid :| pid in group {
      var rest := group - {pid};
      assert group.Keys == rest.Keys + {pid};
      ValuesAsManyAsKeys(rest);
      assert group.Values == rest.Values + {group[pid]} by {
        forall e | e in group.Values
          ensures e in rest.Values + {group[pid]}
        {
          var k :| k in group && group[k] == e;
          if k != pid {
            assert rest[k] == e;
          }
        }
      }
      assert group[pid] !in rest.Values;
    } else {
      assert group == map[];
    }
  }

  // The cap is hit exactly on cyclic chains: a chain that ends visits distinct
  // members, so it has fewer links than the group has members.
  lemma DepthHitsCapIffCyclic(group: map<nat, ProcEntry>, e: ProcEntry)
    requires Keyed(group) && InTable(group, e)
    ensures DepthIn(group, e) <= |group|
    ensures DepthIn(group, e) < |group| <==> Acyclic(group, e)
    ensures !Acyclic(group, e) <==> exists i: nat, j: nat :: Orbit.Cycle(ParentIn(group), e, i, j)
  {
    CappedDepthCounts(group, e, |group|);
    Orbit.HaltsIffNoCycle(ParentIn(group), group.Values, e);
    ValuesAsManyAsKeys(group);
    if Acyclic(group, e) {
      assert Ancestor(group, e, |group|) == None;
    }
  }

  lemma AcyclicGoesUp(group: map<nat, ProcEntry>, e: ProcEntry)
    requires e.ppid in group
    ensures Acyclic(group, e) <==> Acyclic(group, group[e.ppid])
  {
    var f := ParentIn(group);
    assert f(e) == Some(group[e.ppid]);
    if Acyclic(group, e) {
      var k: nat :| Orbit.At(f, e, k) == None;
      Orbit.Shift(f, e, k - 1);
    }
    if Acyclic(group, group[e.ppid]) {
      var k: nat :| Orbit.At(f, group[e.ppid], k) == None;
      Orbit.Shift(f, e, k);
    }
  }

  // A member on an acyclic chain is exactly one level below its parent; one on
  // a cyclic chain shares the level of its parent, the deepest of all.
  lemma DepthBelowParent(group: map<nat, ProcEntry>, e: ProcEntry)
    requires Keyed(group) && InTable(group, e) && e.ppid in group
    ensures Acyclic(group, e) ==> DepthIn(group, e) == DepthIn(group, group[e.ppid]) + 1
    ensures !Acyclic(group, e) ==> DepthIn(group, e) == DepthIn(group, group[e.ppid]) == |group|
  {
    var p := group[e.ppid];
    AcyclicGoesUp(group, e);
    DepthHitsCapIffCyclic(group, e);
    DepthHitsCapIffCyclic(group, p);
    if Acyclic(group, e) {
      var d := DepthIn(group, p);
      CappedDepthCounts(group, p, |group|);
      CappedDepthCounts(group, e, |group|);
      Orbit.Shift(ParentIn(group), e, d);
      Orbit.Shift(ParentIn(group), e, d + 1);
      ChainLengthUnique(group, e, DepthIn(group, e), d + 1);
    }
  }

  method MeasureDepth(group: map<nat, ProcEntry>, e: ProcEntry) returns (d: nat)
    ensures d == DepthIn(group, e)
  {
    d := 0;
    var at := e;
    while at.ppid in group && d < |group|
      invariant d <= |group|
      invariant DepthIn(group, e) == d + CappedDepth(group, at, |group| - d)
      decreases |group| - d
    {
      at := group[at.ppid];
      d := d + 1;
    }
  }

  // ---- the order ----

  predicate Before(group: map<nat, ProcEntry>, a: ProcEntry, b: ProcEntry) {
    DepthIn(group, a) < DepthIn(group, b) || (DepthIn(group, a) == DepthIn(group, b) && a.pid < b.pid)
  }

  predicate Ascending(group: map<nat, ProcEntry>, members: seq<ProcEntry>) {
    forall i, j :: 0 <= i < j < |members| ==> Before(group, members[i], members[j])
  }

  // The members, each once, by depth and then by PID.
  ghost predicate Ordered(group: map<nat, ProcEntry>, members: seq<ProcEntry>) {
    Ascending(group, members) && forall e :: e in members <==> InTable(group, e)
  }

  // The order of a group does not depend on how it was enumerated.
  lemma {:induction false} OrderUnique(group: map<nat, ProcEntry>, a: seq<ProcEntry>, b: seq<ProcEntry>)
    requires Ascending(group, a) && Ascending(group, b)
    requires forall e :: e in a <==> e in b
    ensures a == b
  {
    assert |a| > 0 ==> a[0] in b;
    assert |b| > 0 ==> b[0] in a;
    if a != [] {
      var i :| 0 <= i < |a| && a[i] == b[0];
      var j :| 0 <= j < |b| && b[j] == a[0];
      assert a[0] == b[0];
      forall e
        ensures e in a[1..] <==> e in b[1..]
      {
        assert a == [a[0]] + a[1..] && b == [b[0]] + b[1..];
        if e in a[1..] {
          var k :| 0 <= k < |a[1..]| && a[1..][k] == e;
          assert Before(group, a[0], a[k + 1]);
          assert e in a;
        }
        if e in b[1..] {
          var k :| 0 <= k < |b[1..]| && b[1..][k] == e;
          assert Before(group, b[0], b[k + 1]);
          assert e in b;
        }
      }
      OrderUnique(group, a[1..], b[1..]);
    }
  }

  // A parent precedes its child exactly when the chain of the child is acyclic
  // or, on a cyclic chain, when the parent happens to have the smaller PID.
  lemma ParentPrecedesIff(group: map<nat, ProcEntry>, members: seq<ProcEntry>, i: nat, j: nat)
    requires Keyed(group) && Ordered(group, members)
    requires i < |members| && j < |members| && members[j].ppid == members[i].pid
    ensures i < j <==> Acyclic(group, members[j]) || members[i].pid < members[j].pid
    ensures Acyclic(group, members[j]) ==> DepthIn(group, members[j]) == DepthIn(group, members[i]) + 1
  {
    var p, c := members[i], members[j];
    assert p in members && c in members;
    DepthBelowParent(group, c);
    if j < i {
      assert Before(group, c, p);
    } else if i < j {
      assert Before(group, p, c);
    }
  }

  // ---- sorting ----

  lemma Inserted(group: map<nat, ProcEntry>, sorted: seq<ProcEntry>, e: ProcEntry, k: nat)
    requires Ascending(group, sorted) && k <= |sorted|
    requires k > 0 ==> Before(group, sorted[k - 1], e)
    requires forall j :: k <= j < |sorted| ==> Before(group, e, sorted[j])
    ensures Ascending(group, sorted[..k] + [e] + sorted[k..])
    ensures forall x :: x in sorted[..k] + [e] + sorted[k..] <==> x == e || x in sorted
  {
    forall j | 0 <= j < k
      ensures Before(group, sorted[j], e)
    {
      assert j < k - 1 ==> Before(group, sorted[j], sorted[k - 1]);
    }
    assert sorted == sorted[..k] + sorted[k..];
  }

  method Insert(group: map<nat, ProcEntry>, sorted: seq<ProcEntry>, e: ProcEntry) returns (longer: seq<ProcEntry>)
    requires Ascending(group, sorted)
    requires forall x :: x in sorted ==> x.pid != e.pid
    ensures Ascending(group, longer)
    ensures forall x :: x in longer <==> x == e || x in sorted
  {
    var k := |sorted|;
    var d := MeasureDepth(group, e);
    while k > 0
      invariant 0 <= k <= |sorted|
      invariant forall j :: k <= j < |sorted| ==> Before(group, e, sorted[j])
    {
      var dk := MeasureDepth(group, sorted[k - 1]);
      if dk < d || (dk == d && sorted[k - 1].pid < e.pid) {
        break;
      }
      assert sorted[k - 1] in sorted;
      k := k - 1;
    }
    longer := sorted[..k] + [e] + sorted[k..];
    Inserted(group, sorted, e, k);
  }

  // Collects the members in whatever order the map yields them, and sorts them.
  method SortMembers(group: map<nat, ProcEntry>) returns (members: seq<ProcEntry>)
    requires Keyed(group)
    ensures Ordered(group, members)
  {
    members := [];
    var left := group.Keys;
    while left != {}
      invariant left <= group.Keys
      invariant Ascending(group, members)
      invariant forall e :: e in members <==> InTable(group, e) && e.pid !in left
      decreases left
    {
      var pid :| pid in left;
      members := Insert(group, members, group[pid]);
      left := left - {pid};
    }
  }
}
