// The process table as a graph: parent links, portpin's own ancestor chain and
// the climb to the root of a group.
module ProcGraph {
  import opened Model
  import Orbit

  datatype ProcEntry = ProcEntry(
    pid: nat, ppid: nat, pgid: nat, sessionLeader: bool, startTime: nat, name: string, cmdline: string)

  predicate Protected(e: ProcEntry) {
    e.pid == 1 || e.ppid == 0
  }

  predicate Detached(e: ProcEntry) {
    e.sessionLeader || e.ppid == 1
  }

  predicate DistinctPids(table: seq<ProcEntry>) {
    forall i, j :: 0 <= i < j < |table| ==> table[i].pid != table[j].pid
  }

  predicate Keyed(procs: map<nat, ProcEntry>) {
    forall pid :: pid in procs ==> procs[pid].pid == pid
  }

  predicate InTable(procs: map<nat, ProcEntry>, e: ProcEntry) {
    e.pid in procs && procs[e.pid] == e
  }

  // The table indexed by PID. It forgets the order of the rows.
  function ByPid(table: seq<ProcEntry>): (procs: map<nat, ProcEntry>)
    ensures Keyed(procs)
    ensures forall pid :: pid in procs ==> procs[pid] in table
  {
    if table == [] then map[]
    else
      var last := table[|table| - 1];
      ByPid(table[..|table| - 1])[last.pid := last]
  }

  lemma {:induction false} ByPidHolds(table: seq<ProcEntry>)
    requires DistinctPids(table)
    ensures forall e :: e in table <==> InTable(ByPid(table), e)
  {
    if table != [] {
      var init, last := table[..|table| - 1], table[|table| - 1];
      ByPidHolds(init);
      assert table == init + [last];
      forall e
        ensures e in table <==> InTable(ByPid(table), e)
      {
        assert e in table <==> e in init || e == last;
        if e in init {
          var i :| 0 <= i < |init| && init[i] == e;
          assert table[i].pid != table[|init|].pid;
        }
      }
    }
  }

  // Two tables holding the same rows in any order index to the same map.
  lemma ByPidIgnoresOrder(table: seq<ProcEntry>, other: seq<ProcEntry>)
    requires DistinctPids(table) && DistinctPids(other)
    requires forall e :: e in table <==> e in other
    ensures ByPid(table) == ByPid(other)
  {
    ByPidHolds(table);
    ByPidHolds(other);
    var p, q := ByPid(table), ByPid(other);
    forall pid | pid in p
      ensures pid in q && q[pid] == p[pid]
    {
      assert InTable(p, p[pid]) && InTable(q, p[pid]);
    }
    forall pid | pid in q
      ensures pid in p
    {
      assert InTable(q, q[pid]) && InTable(p, q[pid]);
    }
  }

  // Everything GroupMembers looks at apart from its target: the indexed table,
  // portpin's own PID, and the rule saying which parents may be climbed to.
  datatype View = View(procs: map<nat, ProcEntry>, self: nat, climbable: ProcEntry -> bool) {

    // The PID reached from `self` after k parent links; 0 once the walk is over.
    ghost function SelfAt(k: nat): nat {
      if k == 0 then self
      else
        var pid := SelfAt(k - 1);
        if pid != 0 && pid in procs then procs[pid].ppid else 0
    }

    // `pid` is portpin, the shell that started it, or any further ancestor.
    ghost predicate SelfOrAncestor(pid: nat) {
      pid != 0 && exists k: nat :: SelfAt(k) == pid
    }

    // The parent the climb moves to from `root`, if it moves.
    function ClimbStep(chain: set<nat>, root: ProcEntry): Option<ProcEntry> {
      if root.ppid !in procs then None
      else
        var p := procs[root.ppid];
        if p.pid == root.pid || p.pid in chain || !climbable(p) || p.startTime == 0 || p.startTime > root.startTime
        then None
        else Some(p)
    }

    function Climber(chain: set<nat>): ProcEntry -> Option<ProcEntry> {
      root => ClimbStep(chain, root)
    }

    // The entry reached after exactly k climb steps.
    ghost function ClimbAt(chain: set<nat>, t: ProcEntry, k: nat): Option<ProcEntry> {
      Orbit.At(Climber(chain), t, k)
    }

    ghost predicate ClimbEndsAt(chain: set<nat>, t: ProcEntry, k: nat, root: ProcEntry) {
      ClimbAt(chain, t, k) == Some(root) && ClimbStep(chain, root) == None
    }

    ghost predicate ClimbHalts(chain: set<nat>, t: ProcEntry) {
      Orbit.Halts(Climber(chain), t)
    }
  }

  // ---- portpin's own chain ----

  ghost predicate IsSelfChain(v: View, chain: set<nat>) {
    forall pid :: pid in chain <==> v.SelfOrAncestor(pid)
  }

  lemma {:induction false} SelfWalkStops(v: View, k: nat, n: nat)
    requires v.SelfAt(k) == 0
    ensures v.SelfAt(k + n) == 0
  {
    if n > 0 {
      SelfWalkStops(v, k, n - 1);
    }
  }

  // A set that contains `self` and is closed under the walk contains all of it.
  lemma {:induction false} SelfWalkStaysIn(v: View, chain: set<nat>, k: nat)
    requires v.self == 0 || v.self in chain
    requires forall pid :: pid in chain && pid in v.procs ==> v.procs[pid].ppid == 0 || v.procs[pid].ppid in chain
    ensures v.SelfAt(k) == 0 || v.SelfAt(k) in chain
  {
    if k > 0 {
      SelfWalkStaysIn(v, chain, k - 1);
    }
  }

  method SelfChain(v: View) returns (chain: set<nat>)
    ensures IsSelfChain(v, chain)
  {
    chain := {};
    var pid := v.self;
    ghost var k := 0;
    ghost var open := v.procs.Keys;
    while pid != 0 && pid !in chain
      invariant pid == v.SelfAt(k)
      invariant forall x :: x in chain ==> v.SelfOrAncestor(x)
      invariant pid == v.self || v.self in chain
      invariant forall x :: x in chain && x in v.procs ==>
        v.procs[x].ppid == pid || v.procs[x].ppid in chain
      invariant open == v.procs.Keys - chain
      decreases open
    {
      assert v.SelfOrAncestor(pid);
      chain := chain + {pid};
      if pid !in v.procs {
        break;
      }
      open := open - {pid};
      pid := v.procs[pid].ppid;
      k := k + 1;
    }
    forall x | v.SelfOrAncestor(x)
      ensures x in chain
    {
      var n: nat :| v.SelfAt(n) == x;
      SelfWalkStaysIn(v, chain, n);
    }
  }

  // ---- the climb ----

  lemma ClimbIsInTable(v: View, chain: set<nat>, t: ProcEntry, k: nat)
    requires Keyed(v.procs) && InTable(v.procs, t) && v.ClimbAt(chain, t, k).Some?
    ensures InTable(v.procs, v.ClimbAt(chain, t, k).value)
  {
    Orbit.StaysIn(v.Climber(chain), v.procs.Values, t, k);
  }

  // The climb is deterministic: it ends at one entry only.
  lemma ClimbEndUnique(v: View, chain: set<nat>, t: ProcEntry, k: nat, r: ProcEntry, k': nat, r': ProcEntry)
    requires v.ClimbEndsAt(chain, t, k, r) && v.ClimbEndsAt(chain, t, k', r')
    ensures k == k' && r == r'
  {
    assert v.ClimbAt(chain, t, k + 1) == None;
    assert v.ClimbAt(chain, t, k' + 1) == None;
    if k < k' {
      Orbit.NoneForever(v.Climber(chain), t, k + 1, k');
    } else if k' < k {
      Orbit.NoneForever(v.Climber(chain), t, k' + 1, k);
    }
  }

  // Start times never rise along the climb.
  lemma {:induction false} ClimbStartTimesFall(v: View, chain: set<nat>, t: ProcEntry, i: nat, j: nat)
    requires i <= j && v.ClimbAt(chain, t, j).Some?
    ensures v.ClimbAt(chain, t, i).Some?
    ensures v.ClimbAt(chain, t, j).value.startTime <= v.ClimbAt(chain, t, i).value.startTime
    decreases j
  {
    if i < j {
      ClimbStartTimesFall(v, chain, t, i, j - 1);
    }
  }

  // The climb comes back at step j to the entry it was at in step i.
  ghost predicate ClimbCycle(v: View, chain: set<nat>, t: ProcEntry, i: nat, j: nat) {
    Orbit.Cycle(v.Climber(chain), t, i, j)
  }

  // The climb ends exactly when it never comes back to an entry it has left,
  // and then within as many steps as the table has rows.
  lemma ClimbHaltsIffNoCycle(v: View, chain: set<nat>, t: ProcEntry)
    requires Keyed(v.procs) && InTable(v.procs, t)
    ensures v.ClimbHalts(chain, t) <==> forall i: nat, j: nat :: !ClimbCycle(v, chain, t, i, j)
    ensures v.ClimbHalts(chain, t) <==> v.ClimbAt(chain, t, |v.procs.Values|) == None
  {
    Orbit.HaltsIffNoCycle(v.Climber(chain), v.procs.Values, t);
    assert forall i: nat, j: nat :: ClimbCycle(v, chain, t, i, j) == Orbit.Cycle(v.Climber(chain), t, i, j);
  }

  // Every step of a climb cycle joins a child and a parent that started at the
  // same time.
  lemma ClimbCycleJoinsEqualStartTimes(v: View, chain: set<nat>, t: ProcEntry, i: nat, j: nat, k: nat)
    requires Keyed(v.procs) && ClimbCycle(v, chain, t, i, j) && i <= k < j
    ensures v.ClimbAt(chain, t, k).Some? && v.ClimbAt(chain, t, k + 1).Some?
    ensures v.ClimbAt(chain, t, k).value.ppid == v.ClimbAt(chain, t, k + 1).value.pid
    ensures v.ClimbAt(chain, t, k).value.startTime == v.ClimbAt(chain, t, k + 1).value.startTime
  {
    ClimbStartTimesFall(v, chain, t, k + 1, j);
    ClimbStartTimesFall(v, chain, t, k, k + 1);
    ClimbStartTimesFall(v, chain, t, i, k);
  }

  // The row above row i of a loop: the next one, and the first above the last.
  function Above(loop: seq<ProcEntry>, i: nat): ProcEntry
    requires i < |loop|
  {
    if i + 1 < |loop| then loop[i + 1] else loop[0]
  }

  // Rows of the table, each the parent of the one before and the first the parent
  // of the last, all of them climbable, outside portpin's chain, and started at
  // the same known time. A row that is its own parent is no loop.
  ghost predicate ClimbLoop(v: View, chain: set<nat>, loop: seq<ProcEntry>) {
    |loop| > 0 && forall i :: 0 <= i < |loop| ==>
      && InTable(v.procs, loop[i]) && v.climbable(loop[i]) && loop[i].pid !in chain
      && loop[i].startTime == loop[0].startTime != 0
      && loop[i].ppid == Above(loop, i).pid && loop[i].pid != Above(loop, i).pid
  }

  // The climb from t gets to a row of a loop.
  ghost predicate LoopAbove(v: View, chain: set<nat>, t: ProcEntry) {
    exists loop, k: nat :: ClimbLoop(v, chain, loop) && v.ClimbAt(chain, t, k) == Some(loop[0])
  }

  lemma StepInLoop(v: View, chain: set<nat>, loop: seq<ProcEntry>, i: nat)
    requires ClimbLoop(v, chain, loop) && i < |loop|
    ensures v.ClimbStep(chain, loop[i]) == Some(Above(loop, i))
  {
    var j := if i + 1 < |loop| then i + 1 else 0;
    assert Above(loop, i) == loop[j] && InTable(v.procs, loop[j]);
  }

  lemma ClimbInLoop(v: View, chain: set<nat>, t: ProcEntry, loop: seq<ProcEntry>, k: nat, i: nat)
    requires ClimbLoop(v, chain, loop) && v.ClimbAt(chain, t, k) == Some(loop[0]) && i < |loop|
    ensures v.ClimbAt(chain, t, k + i) == Some(loop[i])
  {
    forall n | 0 <= n < |loop| - 1
      ensures v.Climber(chain)(loop[n]) == Some(loop[n + 1])
    {
      StepInLoop(v, chain, loop, n);
    }
    Orbit.Follows(v.Climber(chain), t, k, loop, i);
  }

  lemma ClimbNext(v: View, chain: set<nat>, t: ProcEntry, k: nat, e: ProcEntry)
    requires v.ClimbAt(chain, t, k) == Some(e)
    ensures v.ClimbAt(chain, t, k + 1) == v.ClimbStep(chain, e)
  {
  }

  // A climb that gets into a loop goes round.
  lemma LoopIsCycle(v: View, chain: set<nat>, t: ProcEntry, loop: seq<ProcEntry>, k: nat)
    requires ClimbLoop(v, chain, loop) && v.ClimbAt(chain, t, k) == Some(loop[0])
    ensures ClimbCycle(v, chain, t, k, k + |loop|)
  {
    ClimbInLoop(v, chain, t, loop, k, |loop| - 1);
    StepInLoop(v, chain, loop, |loop| - 1);
    ClimbNext(v, chain, t, k + |loop| - 1, loop[|loop| - 1]);
  }

  // A row the climb has moved to.
  lemma ClimbedTo(v: View, chain: set<nat>, t: ProcEntry, k: nat)
    requires Keyed(v.procs) && v.ClimbAt(chain, t, k + 1).Some?
    ensures v.ClimbAt(chain, t, k).Some?
    ensures var e, p := v.ClimbAt(chain, t, k).value, v.ClimbAt(chain, t, k + 1).value;
      && InTable(v.procs, p) && v.climbable(p) && p.pid !in chain && p.startTime != 0
      && e.ppid == p.pid && e.pid != p.pid
  {
  }

  lemma CycleNeverEnds(v: View, chain: set<nat>, t: ProcEntry, i: nat, j: nat)
    requires ClimbCycle(v, chain, t, i, j)
    ensures forall k: nat :: v.ClimbAt(chain, t, k).Some?
  {
    forall k: nat
      ensures v.ClimbAt(chain, t, k).Some?
    {
      Orbit.CycleNeverEnds(v.Climber(chain), t, i, j, k);
    }
  }

  // The rows a climb goes round on.
  ghost function RowsOfCycle(v: View, chain: set<nat>, t: ProcEntry, i: nat, j: nat): (loop: seq<ProcEntry>)
    requires ClimbCycle(v, chain, t, i, j)
    ensures |loop| == j - i
    ensures forall n :: 0 <= n < |loop| ==> v.ClimbAt(chain, t, i + n) == Some(loop[n])
  {
    CycleNeverEnds(v, chain, t, i, j);
    seq(j - i, n requires 0 <= n < j - i => v.ClimbAt(chain, t, i + n).value)
  }

  lemma CycleIsLoop(v: View, chain: set<nat>, t: ProcEntry, i: nat, j: nat)
    requires Keyed(v.procs) && ClimbCycle(v, chain, t, i, j)
    ensures ClimbLoop(v, chain, RowsOfCycle(v, chain, t, i, j))
  {
    var loop := RowsOfCycle(v, chain, t, i, j);
    assert v.ClimbAt(chain, t, i + 0) == Some(loop[0]);
    forall n | 0 <= n < |loop|
      ensures InTable(v.procs, loop[n]) && v.climbable(loop[n])
      ensures loop[n].pid !in chain && loop[n].startTime == loop[0].startTime != 0
      ensures loop[n].ppid == Above(loop, n).pid && loop[n].pid != Above(loop, n).pid
    {
      assert v.ClimbAt(chain, t, i + n) == Some(loop[n]);
      assert v.ClimbAt(chain, t, i + n + 1) == Some(Above(loop, n)) by {
        if n + 1 < |loop| {
          assert v.ClimbAt(chain, t, i + (n + 1)) == Some(loop[n + 1]);
        }
      }
      ClimbedTo(v, chain, t, i + n);
      // Row 0 is also the row the climb moved to at step j.
      ClimbedTo(v, chain, t, if n == 0 then j - 1 else i + n - 1);
      ClimbStartTimesFall(v, chain, t, i, i + n);
      ClimbStartTimesFall(v, chain, t, i + n, j);
    }
  }

  // The climb from t ends exactly when it does not get into a loop.
  lemma ClimbHaltsIffNoLoopAbove(v: View, chain: set<nat>, t: ProcEntry)
    requires Keyed(v.procs) && InTable(v.procs, t)
    ensures v.ClimbHalts(chain, t) <==> !LoopAbove(v, chain, t)
  {
    ClimbHaltsIffNoCycle(v, chain, t);
    if LoopAbove(v, chain, t) {
      var loop, k: nat :| ClimbLoop(v, chain, loop) && v.ClimbAt(chain, t, k) == Some(loop[0]);
      LoopIsCycle(v, chain, t, loop, k);
    }
    if !v.ClimbHalts(chain, t) {
      var i: nat, j: nat :| ClimbCycle(v, chain, t, i, j);
      CycleIsLoop(v, chain, t, i, j);
      assert v.ClimbAt(chain, t, i + 0) == Some(RowsOfCycle(v, chain, t, i, j)[0]);
    }
  }

  // Every climb on the table ends exactly when the table holds no loop.
  lemma ClimbsHaltIffNoLoop(v: View, chain: set<nat>)
    requires Keyed(v.procs)
    ensures (forall t :: InTable(v.procs, t) ==> v.ClimbHalts(chain, t)) <==> !exists loop :: ClimbLoop(v, chain, loop)
  {
    forall loop | ClimbLoop(v, chain, loop)
      ensures !v.ClimbHalts(chain, loop[0])
    {
      assert v.ClimbAt(chain, loop[0], 0) == Some(loop[0]);
      ClimbHaltsIffNoLoopAbove(v, chain, loop[0]);
    }
    forall t | InTable(v.procs, t) && !v.ClimbHalts(chain, t)
      ensures exists loop :: ClimbLoop(v, chain, loop)
    {
      ClimbHaltsIffNoLoopAbove(v, chain, t);
    }
  }

  // A table of distinct PIDs on which the climb of the source never ends: portpin
  // is 100, and two climbable processes are each other's parents and started at
  // the same time.
  const LOOPING_TABLE: seq<ProcEntry> := [
    ProcEntry(10, 11, 0, false, 5, "npm.cmd", ""),
    ProcEntry(11, 10, 0, false, 5, "npm.cmd", ""),
    ProcEntry(100, 0, 0, false, 9, "portpin.exe", "")]

  // portpin without a parent in the table is a chain of its own.
  lemma OwnChain(v: View)
    requires v.self != 0 && v.self in v.procs && v.procs[v.self].ppid == 0
    ensures IsSelfChain(v, {v.self})
  {
    assert v.SelfAt(0) == v.self && v.SelfAt(1) == 0;
    forall k: nat
      ensures v.SelfAt(k) == if k == 0 then v.self else 0
    {
      if k > 0 {
        SelfWalkStops(v, 1, k - 1);
      }
    }
  }

  lemma ClimbCanDiverge(climbable: ProcEntry -> bool)
    requires climbable(LOOPING_TABLE[0]) && climbable(LOOPING_TABLE[1])
    ensures DistinctPids(LOOPING_TABLE) && LOOPING_TABLE[0].pgid == 0
    ensures var v := View(ByPid(LOOPING_TABLE), 100, climbable);
      && InTable(v.procs, LOOPING_TABLE[0]) && IsSelfChain(v, {100})
      && !v.ClimbHalts({100}, LOOPING_TABLE[0])
  {
    var v := View(ByPid(LOOPING_TABLE), 100, climbable);
    ByPidHolds(LOOPING_TABLE);
    assert forall i :: 0 <= i < 3 ==> LOOPING_TABLE[i] in LOOPING_TABLE;
    var loop := LOOPING_TABLE[..2];
    assert ClimbLoop(v, {100}, loop);
    assert v.ClimbAt({100}, loop[0], 0) == Some(loop[0]);
    ClimbHaltsIffNoLoopAbove(v, {100}, loop[0]);
    OwnChain(v);
  }

  method Climb(v: View, chain: set<nat>, t: ProcEntry) returns (root: ProcEntry)
    requires t.pgid == 0 ==> v.ClimbHalts(chain, t)
    ensures t.pgid != 0 ==> root == t
    ensures t.pgid == 0 ==> exists k: nat :: v.ClimbEndsAt(chain, t, k, root)
  {
    root := t;
    ghost var k := 0;
    ghost var limit: nat := if t.pgid == 0 then var n: nat :| Orbit.At(v.Climber(chain), t, n) == None; n else 0;
    while t.pgid == 0
      invariant v.ClimbAt(chain, t, k) == Some(root)
      invariant t.pgid != 0 ==> root == t
      invariant t.pgid == 0 ==> k < limit
      decreases limit - k
    {
      if root.ppid !in v.procs {
        assert v.ClimbEndsAt(chain, t, k, root);
        break;
      }
      var p := v.procs[root.ppid];
      if p.pid == root.pid || p.pid in chain || !v.climbable(p) || p.startTime == 0 || p.startTime > root.startTime {
        assert v.ClimbEndsAt(chain, t, k, root);
        break;
      }
      root := p;
      k := k + 1;
      if k == limit {
        assert false;
      }
    }
  }
}
