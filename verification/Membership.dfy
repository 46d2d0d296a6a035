// The answer for a target over the fields of the rows: when it is a refusal and
// which, who is listed and with what, and in which order.
module Membership {
  import opened Model
  import opened ProcGraph
  import opened Search
  import opened Depth
  import opened Group
  import Orbit

  // ---- targets answered without a group ----

  // The target is gone from the table, or its PID belongs to another process now.
  predicate Stale(procs: map<nat, ProcEntry>, target: ProcMeta) {
    target.pid !in procs || (target.startTime != 0 && procs[target.pid].startTime != target.startTime)
  }

  lemma StaleIsAnsweredWithItself(v: View, target: ProcMeta, r: Result<seq<ProcMeta>, Refusal>)
    requires Stale(v.procs, target)
    ensures IsGroup(v, target, r) <==> r == Ok([target])
  {
  }

  // lead leads the process group of t, and a shell or the system started it apart.
  predicate LedByDaemon(procs: map<nat, ProcEntry>, t: ProcEntry, lead: ProcEntry) {
    && t.pgid != 0 && t.pgid in procs && procs[t.pgid] == lead
    && lead.pid != t.pid && (lead.sessionLeader || lead.ppid == 1)
  }

  // A daemon refusal names the leader of the target's process group, and is given
  // exactly when that is another process that leads a session or hangs on PID 1.
  lemma DaemonRefusedIff(v: View, target: ProcMeta, pid: nat, name: string)
    requires Keyed(v.procs) && !Stale(v.procs, target)
    ensures IsGroup(v, target, Err(DaemonGroup(pid, name))) <==>
      exists lead :: LedByDaemon(v.procs, v.procs[target.pid], lead) && pid == lead.pid
        && name == (if lead.name == "" then "?" else lead.name)
  {
    var t := v.procs[target.pid];
    if t.pgid != 0 && t.pgid in v.procs {
      var lead := v.procs[t.pgid];
      assert DaemonLed(v.procs, t) ==> LedByDaemon(v.procs, t, lead);
    }
  }

  lemma DaemonRefusedOnly(v: View, target: ProcMeta, r: Result<seq<ProcMeta>, Refusal>, lead: ProcEntry)
    requires Keyed(v.procs) && !Stale(v.procs, target) && LedByDaemon(v.procs, v.procs[target.pid], lead)
    requires IsGroup(v, target, r)
    ensures r == Err(DaemonGroup(lead.pid, if lead.name == "" then "?" else lead.name))
  {
    DaemonRefusedIff(v, target, lead.pid, if lead.name == "" then "?" else lead.name);
    GroupUnique(v, target, r, Err(DaemonGroup(lead.pid, if lead.name == "" then "?" else lead.name)));
  }

  // ---- who belongs to a group ----

  // e is in the process group of t and did not set out on its own. A process that
  // must not be killed counts in any case, so that the group is refused.
  predicate Mate(t: ProcEntry, e: ProcEntry) {
    && e.pgid == t.pgid
    && (e.pid == t.pid || (!e.sessionLeader && e.ppid != 1) || e.pid == 1 || e.ppid == 0)
  }

  // c was started by p, and not by an earlier process with its PID.
  predicate Offspring(p: ProcEntry, c: ProcEntry) {
    c.ppid == p.pid && c.pid != p.pid && c.startTime > 0 && p.startTime <= c.startTime
  }

  // These PIDs take in the root, the mates, and the offspring of the root and of
  // whoever among them is no mate.
  ghost predicate Gathers(procs: map<nat, ProcEntry>, t: ProcEntry, root: ProcEntry, s: set<nat>) {
    && root.pid in s
    && (t.pgid != 0 ==> forall pid :: pid in procs && Mate(t, procs[pid]) ==> pid in s)
    && (forall p, c :: p in procs && c in procs && p in s && Offspring(procs[p], procs[c]) ==>
          procs[p] == root || t.pgid == 0 || !Mate(t, procs[p]) ==> c in s)
  }

  lemma GathersIffClosed(procs: map<nat, ProcEntry>, t: ProcEntry, root: ProcEntry, s: set<nat>)
    requires Keyed(procs) && InTable(procs, root)
    ensures Gathers(procs, t, root, s) <==> Seeds(procs, t, root) <= s && Closed(procs, Seeds(procs, t, root), root, s)
  {
    var seeds := Seeds(procs, t, root);
    assert forall pid :: pid in procs ==>
      (pid in seeds <==> procs[pid] == root || (t.pgid != 0 && Mate(t, procs[pid])));
    if Gathers(procs, t, root, s) {
      forall p: ProcEntry, c: ProcEntry |
        p.pid in s && InTable(procs, p) && (p == root || p.pid !in seeds) && Link(p, c) && InTable(procs, c)
        ensures c.pid in s
      {
        assert Offspring(procs[p.pid], procs[c.pid]);
      }
    }
    if seeds <= s && Closed(procs, seeds, root, s) {
      forall p, c | p in procs && c in procs && p in s && Offspring(procs[p], procs[c])
        && (procs[p] == root || t.pgid == 0 || !Mate(t, procs[p]))
        ensures c in s
      {
        assert Link(procs[p], procs[c]);
      }
    }
  }

  // The members are the least such set.
  lemma MembersGather(procs: map<nat, ProcEntry>, t: ProcEntry, root: ProcEntry)
    requires Keyed(procs) && InTable(procs, root)
    ensures Gathers(procs, t, root, Members(procs, t, root).Keys)
    ensures forall s: set<nat> :: Gathers(procs, t, root, s) ==> Members(procs, t, root).Keys <= s
  {
    MembersAreLeastClosure(procs, t, root);
    assert Seeds(procs, t, root) <= procs.Keys;
    GathersIffClosed(procs, t, root, Members(procs, t, root).Keys);
    forall s: set<nat> | Gathers(procs, t, root, s)
      ensures Members(procs, t, root).Keys <= s
    {
      GathersIffClosed(procs, t, root, s);
    }
  }

  // ---- the root ----

  // The climb moves from e to its parent exactly when that is another process,
  // outside portpin's chain, climbable, and not younger.
  lemma ClimbMovesIff(v: View, chain: set<nat>, t: ProcEntry, k: nat, e: ProcEntry)
    requires Keyed(v.procs) && v.ClimbAt(chain, t, k) == Some(e)
    ensures v.ClimbAt(chain, t, k + 1).Some? <==>
      && e.ppid in v.procs && e.ppid != e.pid && e.ppid !in chain && v.climbable(v.procs[e.ppid])
      && 0 < v.procs[e.ppid].startTime <= e.startTime
    ensures v.ClimbAt(chain, t, k + 1).Some? ==> v.ClimbAt(chain, t, k + 1).value == v.procs[e.ppid]
  {
  }

  ghost predicate Ancestral(v: View, s: set<nat>) {
    && (v.self != 0 ==> v.self in s)
    && forall pid :: pid in s && pid in v.procs ==> v.procs[pid].ppid == 0 || v.procs[pid].ppid in s
  }

  // Portpin's chain is the least set with portpin and the parents of its rows.
  lemma ChainIsLeast(v: View, chain: set<nat>)
    requires Keyed(v.procs) && IsSelfChain(v, chain)
    ensures Ancestral(v, chain)
    ensures forall s: set<nat> :: Ancestral(v, s) ==> chain <= s
  {
    assert v.SelfAt(0) == v.self;
    forall pid | pid in chain && pid in v.procs && v.procs[pid].ppid != 0
      ensures v.procs[pid].ppid in chain
    {
      var k: nat :| v.SelfAt(k) == pid;
      assert v.SelfAt(k + 1) == v.procs[pid].ppid;
    }
    forall s: set<nat>, pid | Ancestral(v, s) && pid in chain
      ensures pid in s
    {
      var k: nat :| v.SelfAt(k) == pid;
      SelfWalkStaysIn(v, s, k);
    }
  }

  // ---- the verdict ----

  predicate Untouchable(e: ProcEntry) {
    e.pid == 1 || e.ppid == 0
  }

  // Row i is the first that must not be killed, and the refusal names it.
  predicate FirstUntouchable(members: seq<ProcEntry>, i: int, e: Refusal) {
    && 0 <= i < |members| && Untouchable(members[i])
    && (forall j :: 0 <= j < i ==> !Untouchable(members[j]))
    && e == ProtectedProcess(members[i].pid, if members[i].name == "" then "?" else members[i].name)
  }

  // What a listed row becomes.
  predicate ListedAs(m: ProcMeta, target: ProcMeta, e: ProcEntry) {
    if e.pid == target.pid then m == target
    else
      && m.pid == e.pid && m.ppid == e.ppid && m.name == e.name && m.startTime == e.startTime
      && m.uid == 0 && m.user == "" && m.cmdline == []
  }

  // With neither of the above, the rows gathered decide: a process that must not be
  // killed, or else one of portpin's chain, refuses the group; otherwise all are
  // listed.
  lemma Verdict(v: View, target: ProcMeta, r: Result<seq<ProcMeta>, Refusal>)
    returns (chain: set<nat>, root: ProcEntry, members: seq<ProcEntry>)
    requires Keyed(v.procs) && !Stale(v.procs, target) && IsGroup(v, target, r)
    requires forall lead :: !LedByDaemon(v.procs, v.procs[target.pid], lead)
    ensures BuiltFrom(v, v.procs[target.pid], chain, root, members) && InTable(v.procs, root)
    ensures match r
      case Err(DaemonGroup(_, _)) => false
      case Err(ProtectedProcess(_, _)) => exists i :: FirstUntouchable(members, i, r.error)
      case Err(OwnGroup) =>
        && (forall i :: 0 <= i < |members| ==> !Untouchable(members[i]))
        && exists i :: 0 <= i < |members| && v.SelfOrAncestor(members[i].pid)
      case Ok(out) =>
        && (forall i :: 0 <= i < |members| ==> !Untouchable(members[i]) && !v.SelfOrAncestor(members[i].pid))
        && |out| == |members| && forall i :: 0 <= i < |members| ==> ListedAs(out[i], target, members[i])
  {
    var t := v.procs[target.pid];
    assert !DaemonLed(v.procs, t) by {
      assert t.pgid in v.procs ==> !LedByDaemon(v.procs, t, v.procs[t.pgid]);
    }
    chain, root, members :| BuiltFrom(v, t, chain, root, members) && Decided(chain, members, target, r);
    RootInTable(v, chain, t, root);
    if r.Err? && r.error.ProtectedProcess? {
      var i :| Group.Names(members, r.error, i);
      assert FirstUntouchable(members, i, r.error);
    }
  }

  // ---- the order ----

  // The rows from e up to the first whose parent is not in the group.
  ghost predicate ChainOf(group: map<nat, ProcEntry>, e: ProcEntry, chain: seq<ProcEntry>) {
    && |chain| > 0 && chain[0] == e && chain[|chain| - 1].ppid !in group
    && forall k :: 0 <= k < |chain| - 1 ==> chain[k].ppid in group && group[chain[k].ppid] == chain[k + 1]
  }

  lemma ChainEnds(group: map<nat, ProcEntry>, e: ProcEntry, chain: seq<ProcEntry>)
    requires Keyed(group) && InTable(group, e) && ChainOf(group, e, chain)
    ensures DepthIn(group, e) == |chain| - 1
  {
    var n := |chain| - 1;
    Orbit.Follows(ParentIn(group), e, 0, chain, n);
    assert Ancestor(group, e, n) == Some(chain[n]) && Ancestor(group, e, n + 1) == None;
    DepthHitsCapIffCyclic(group, e);
    CappedDepthCounts(group, e, |group|);
    ChainLengthUnique(group, e, DepthIn(group, e), n);
  }

  // Members whose chains in the group end stand by the lengths of these, and then by
  // their PIDs.
  lemma OrderByChains(group: map<nat, ProcEntry>, members: seq<ProcEntry>, i: nat, j: nat, a: seq<ProcEntry>,
      b: seq<ProcEntry>)
    requires Keyed(group) && Ordered(group, members) && i < |members| && j < |members|
    requires ChainOf(group, members[i], a) && ChainOf(group, members[j], b)
    ensures i < j <==> |a| < |b| || (|a| == |b| && members[i].pid < members[j].pid)
  {
    assert members[i] in members && members[j] in members;
    ChainEnds(group, members[i], a);
    ChainEnds(group, members[j], b);
    if i < j {
      assert Before(group, members[i], members[j]);
    } else if j < i {
      assert Before(group, members[j], members[i]);
    }
  }
}
