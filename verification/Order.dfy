// Parents first, from the process table to the signals.
module Order {
  import opened Model
  import opened ProcGraph
  import opened Machine
  import opened Depth
  import opened Grouping
  import opened Conduct
  import opened Escalation
  import Group
  import KillOne

  // Whoever survives pinning, in the group of a live target the target stands
  // among those asked, and nobody stands there twice.
  lemma NobodyIsAskedTwice(v: View, target: ProcMeta, out: seq<ProcMeta>, fates: seq<Option<PinError>>)
    requires Keyed(v.procs) && Group.Live(v.procs, target) && Group.IsGroup(v, target, Ok(out))
    requires KillOne.Fated(target.pid, out, fates) && |out| > 1
    ensures var crew := KillOne.CrewFor(target.pid, out, fates);
      && crew.pids == KeptPids(out, fates) && target.pid in crew.pids
      && forall i, j :: 0 <= i < j < |crew.pids| ==> crew.pids[i] != crew.pids[j]
  {
    Group.TargetIsMember(v, target, out);
    KeptAscends(fates);
    KeptPidsAt(out, fates);
    var t :| 0 <= t < |out| && out[t] == target;
    assert out[t].pid == target.pid && Names(out, target.pid);
    assert t in Kept(fates);
    var k :| 0 <= k < |Kept(fates)| && Kept(fates)[k] == t;
    assert KeptPids(out, fates)[k] == target.pid;
  }

  lemma KeptInOrder(fates: seq<Option<PinError>>, a: nat, b: nat)
    requires a < |Kept(fates)| && b < |Kept(fates)| && Kept(fates)[a] < Kept(fates)[b]
    ensures a < b
  {
    KeptAscends(fates);
  }

  // A surviving parent stands before its surviving child.
  lemma ParentStandsFirst(v: View, target: ProcMeta, out: seq<ProcMeta>, fates: seq<Option<PinError>>, a: nat, b: nat)
    requires Keyed(v.procs) && Group.Live(v.procs, target) && Group.IsGroup(v, target, Ok(out))
    requires |fates| <= |out| && a < |KeptPids(out, fates)| && b < |KeptPids(out, fates)|
    requires KeptPids(out, fates)[b] in v.procs && v.procs[KeptPids(out, fates)[b]].ppid == KeptPids(out, fates)[a]
    requires Acyclic(Group.Rows(v.procs, out), v.procs[KeptPids(out, fates)[b]])
    ensures a < b
  {
    KeptPidsAt(out, fates);
    var x, y := Kept(fates)[a], Kept(fates)[b];
    assert KeptPids(out, fates)[a] == out[x].pid && KeptPids(out, fates)[b] == out[y].pid;
    Group.ParentsComeFirst(v, target, out, x, y);
    KeptInOrder(fates, a, b);
  }

  // Every surviving parent is asked before its surviving child, to stop and to
  // die, unless the chain of the child is cyclic.
  lemma SurvivingParentsAreAskedFirst(v: View, target: ProcMeta, out: seq<ProcMeta>, fates: seq<Option<PinError>>,
      endpoint: AddrPort, o: Options, pidfd: bool, res: Teardown, requests: seq<Request>, i: nat, j: nat)
    requires Keyed(v.procs) && Group.Live(v.procs, target) && Group.IsGroup(v, target, Ok(out))
    requires KillOne.Fated(target.pid, out, fates) && |out| > 1
    requires Ran(KillOne.CrewFor(target.pid, out, fates), endpoint, o, pidfd, res, requests)
    requires i < |requests| && requests[i].Attempt? && j < |requests|
    requires requests[j].Attempt? && requests[i].signal == requests[j].signal
    requires requests[j].pid in v.procs && v.procs[requests[j].pid].ppid == requests[i].pid
    requires Acyclic(Group.Rows(v.procs, out), v.procs[requests[j].pid])
    ensures i < j
  {
    NobodyIsAskedTwice(v, target, out, fates);
    var a, b := AskedInOrder(KillOne.CrewFor(target.pid, out, fates), endpoint, o, pidfd, res, requests, i, j);
    ParentStandsFirst(v, target, out, fates, a, b);
  }
}
