// GroupMembers: the whole construction, and what a group is safe from.
module Group {
  import opened Model
  import opened ProcGraph
  import opened Search
  import opened Depth
  import Orbit

  datatype Refusal =
    | OwnGroup
    | ProtectedProcess(pid: nat, name: string)
    | DaemonGroup(pid: nat, name: string)

  function Shown(name: string): string {
    if name == "" then "?" else name
  }

  function MetaOf(target: ProcMeta, e: ProcEntry): ProcMeta {
    if e.pid == target.pid then target
    else ProcMeta(e.pid, e.ppid, 0, "", e.name, [], e.startTime)
  }

  // The target is in the table and, when discovery knew its start time, it is
  // still the same process.
  predicate Live(procs: map<nat, ProcEntry>, target: ProcMeta) {
    target.pid in procs && (target.startTime == 0 || procs[target.pid].startTime == target.startTime)
  }

  // The target's process group is led by another process that is a session
  // leader or a daemon.
  predicate DaemonLed(procs: map<nat, ProcEntry>, t: ProcEntry) {
    t.pgid != 0 && t.pgid in procs && procs[t.pgid].pid != t.pid && Detached(procs[t.pgid])
  }

  ghost predicate IsRoot(v: View, chain: set<nat>, t: ProcEntry, root: ProcEntry) {
    if t.pgid != 0 then root == t else exists k: nat :: v.ClimbEndsAt(chain, t, k, root)
  }

  // Member i is the first protected one, and the refusal names it.
  ghost predicate Names(members: seq<ProcEntry>, e: Refusal, i: int) {
    && 0 <= i < |members| && e.ProtectedProcess?
    && Protected(members[i]) && e.pid == members[i].pid && e.name == Shown(members[i].name)
    && forall j :: 0 <= j < i ==> !Protected(members[j])
  }

  // What the two refusal scans make of the sorted members.
  ghost predicate Decided(chain: set<nat>, members: seq<ProcEntry>, target: ProcMeta,
      r: Result<seq<ProcMeta>, Refusal>) {
    match r
    case Err(ProtectedProcess(pid, name)) => exists i :: Names(members, ProtectedProcess(pid, name), i)
    case Err(OwnGroup) =>
      && (forall j :: 0 <= j < |members| ==> !Protected(members[j]))
      && exists j :: 0 <= j < |members| && members[j].pid in chain
    case Err(DaemonGroup(_, _)) => false
    case Ok(out) =>
      && (forall j :: 0 <= j < |members| ==> !Protected(members[j]) && members[j].pid !in chain)
      && |out| == |members|
      && forall j :: 0 <= j < |members| ==> out[j] == MetaOf(target, members[j])
  }

  ghost predicate BuiltFrom(v: View, t: ProcEntry, chain: set<nat>, root: ProcEntry, members: seq<ProcEntry>) {
    IsSelfChain(v, chain) && IsRoot(v, chain, t, root) && Ordered(Members(v.procs, t, root), members)
  }

  // r is the answer for the target: the members in order, or the refusal.
  ghost predicate IsGroup(v: View, target: ProcMeta, r: Result<seq<ProcMeta>, Refusal>) {
    if !Live(v.procs, target) then r == Ok([target])
    else
      var t := v.procs[target.pid];
      if DaemonLed(v.procs, t) then r == Err(DaemonGroup(t.pgid, Shown(v.procs[t.pgid].name)))
      else exists chain, root, members :: BuiltFrom(v, t, chain, root, members) && Decided(chain, members, target, r)
  }

  // ---- the method ----

  method Refuse(chain: set<nat>, members: seq<ProcEntry>, target: ProcMeta) returns (r: Result<seq<ProcMeta>, Refusal>)
    ensures Decided(chain, members, target, r)
  {
    for i := 0 to |members|
      invariant forall j :: 0 <= j < i ==> !Protected(members[j])
    {
      if Protected(members[i]) {
        r := Err(ProtectedProcess(members[i].pid, Shown(members[i].name)));
        assert Names(members, r.error, i);
        return;
      }
    }
    for i := 0 to |members|
      invariant forall j :: 0 <= j < i ==> members[j].pid !in chain
    {
      if members[i].pid in chain {
        return Err(OwnGroup);
      }
    }
    var out := [];
    for i := 0 to |members|
      invariant |out| == i
      invariant forall j :: 0 <= j < i ==> out[j] == MetaOf(target, members[j])
    {
      out := out + [MetaOf(target, members[i])];
    }
    return Ok(out);
  }

  method ListMembers(table: seq<ProcEntry>, children: map<nat, seq<ProcEntry>>, t: ProcEntry, root: ProcEntry,
      ghost procs: map<nat, ProcEntry>)
    returns (members: seq<ProcEntry>)
    requires Keyed(procs) && InTable(procs, root) && ChildIndex(children, procs)
    requires forall e :: e in table <==> InTable(procs, e)
    ensures Ordered(Members(procs, t, root), members)
  {
    var seeded := SeedGroup(table, t, root, procs);
    assert seeded.Keys == Seeds(procs, t, root) by {
      assert Seeds(procs, t, root) <= procs.Keys;
    }
    var group := Grow(children, seeded, root, procs);
    assert group == Members(procs, t, root);
    members := SortMembers(group);
  }

  lemma RootInTable(v: View, chain: set<nat>, t: ProcEntry, root: ProcEntry)
    requires Keyed(v.procs) && InTable(v.procs, t) && IsRoot(v, chain, t, root)
    ensures InTable(v.procs, root)
  {
    if t.pgid == 0 {
      var k: nat :| v.ClimbEndsAt(chain, t, k, root);
      ClimbIsInTable(v, chain, t, k);
    }
  }

  method GroupMembers(table: seq<ProcEntry>, target: ProcMeta, self: nat, climbable: ProcEntry -> bool)
    returns (r: Result<seq<ProcMeta>, Refusal>)
    requires DistinctPids(table)
    requires var v := View(ByPid(table), self, climbable);
      Live(v.procs, target) && v.procs[target.pid].pgid == 0 ==>
        forall chain :: IsSelfChain(v, chain) ==> !LoopAbove(v, chain, v.procs[target.pid])
    ensures IsGroup(View(ByPid(table), self, climbable), target, r)
  {
    var byPid, children := Index(table);
    ByPidHolds(table);
    if !Live(byPid, target) {
      return Ok([target]);
    }
    var t := byPid[target.pid];
    var v := View(byPid, self, climbable);
    var chain := SelfChain(v);
    if t.pgid == 0 {
      ClimbHaltsIffNoLoopAbove(v, chain, t);
    }
    var root := Climb(v, chain, t);
    RootInTable(v, chain, t, root);
    if DaemonLed(byPid, t) {
      return Err(DaemonGroup(t.pgid, Shown(byPid[t.pgid].name)));
    }
    var members := ListMembers(table, children, t, root, byPid);
    assert BuiltFrom(v, t, chain, root, members);
    r := Refuse(chain, members, target);
  }

  // ---- one answer only ----

  lemma RootUnique(v: View, chain: set<nat>, t: ProcEntry, root: ProcEntry, root': ProcEntry)
    requires IsRoot(v, chain, t, root) && IsRoot(v, chain, t, root')
    ensures root == root'
  {
    if t.pgid == 0 {
      var k: nat :| v.ClimbEndsAt(chain, t, k, root);
      var k': nat :| v.ClimbEndsAt(chain, t, k', root');
      ClimbEndUnique(v, chain, t, k, root, k', root');
    }
  }

  lemma DecidedUnique(chain: set<nat>, members: seq<ProcEntry>, target: ProcMeta,
      r: Result<seq<ProcMeta>, Refusal>, r': Result<seq<ProcMeta>, Refusal>)
    requires Decided(chain, members, target, r) && Decided(chain, members, target, r')
    ensures r == r'
  {
    if r.Err? && r.error.ProtectedProcess? && r'.Err? && r'.error.ProtectedProcess? {
      var i :| Names(members, r.error, i);
      var i' :| Names(members, r'.error, i');
      assert i == i';
    } else if r.Ok? && r'.Ok? {
      assert r.value == r'.value;
    }
  }

  lemma GroupUnique(v: View, target: ProcMeta, r: Result<seq<ProcMeta>, Refusal>, r': Result<seq<ProcMeta>, Refusal>)
    requires IsGroup(v, target, r) && IsGroup(v, target, r')
    ensures r == r'
  {
    if Live(v.procs, target) && !DaemonLed(v.procs, v.procs[target.pid]) {
      var t := v.procs[target.pid];
      var chain, root, members :| BuiltFrom(v, t, chain, root, members) && Decided(chain, members, target, r);
      var chain', root', members' :| BuiltFrom(v, t, chain', root', members') && Decided(chain', members', target, r');
      assert chain == chain';
      RootUnique(v, chain, t, root, root');
      OrderUnique(Members(v.procs, t, root), members, members');
      DecidedUnique(chain, members, target, r, r');
    }
  }

  // The answer, including which refusal and which PID it names, is the same for
  // every order of the table rows and every map iteration order.
  lemma GroupIgnoresTableOrder(table: seq<ProcEntry>, other: seq<ProcEntry>, self: nat, climbable: ProcEntry -> bool,
      target: ProcMeta, r: Result<seq<ProcMeta>, Refusal>, r': Result<seq<ProcMeta>, Refusal>)
    requires DistinctPids(table) && DistinctPids(other) && multiset(table) == multiset(other)
    requires IsGroup(View(ByPid(table), self, climbable), target, r)
    requires IsGroup(View(ByPid(other), self, climbable), target, r')
    ensures r == r'
  {
    forall e
      ensures e in table <==> e in other
    {
      assert e in table <==> e in multiset(table);
      assert e in other <==> e in multiset(other);
    }
    ByPidIgnoresOrder(table, other);
    GroupUnique(View(ByPid(table), self, climbable), target, r, r');
  }

  // ---- what a successful group looks like ----

  // The rows behind the members of an answer.
  function Rows(procs: map<nat, ProcEntry>, out: seq<ProcMeta>): map<nat, ProcEntry> {
    map pid | pid in procs && (exists i :: 0 <= i < |out| && out[i].pid == pid) :: procs[pid]
  }

  lemma OutMatchesMembers(procs: map<nat, ProcEntry>, t: ProcEntry, chain: set<nat>, root: ProcEntry,
      members: seq<ProcEntry>, target: ProcMeta, out: seq<ProcMeta>)
    requires Keyed(procs) && Ordered(Members(procs, t, root), members) && Decided(chain, members, target, Ok(out))
    ensures forall i :: 0 <= i < |out| ==> out[i].pid == members[i].pid && InTable(procs, members[i])
  {
    forall i | 0 <= i < |out|
      ensures out[i].pid == members[i].pid && InTable(procs, members[i])
    {
      assert members[i] in members;
    }
  }

  lemma RowsAreMembers(procs: map<nat, ProcEntry>, group: map<nat, ProcEntry>, members: seq<ProcEntry>,
      out: seq<ProcMeta>)
    requires Keyed(procs) && |out| == |members| && forall i :: 0 <= i < |out| ==> out[i].pid == members[i].pid
    requires forall pid :: pid in group ==> pid in procs && group[pid] == procs[pid]
    requires forall e :: e in members <==> InTable(group, e)
    ensures Rows(procs, out) == group
  {
    forall pid | pid in group
      ensures pid in Rows(procs, out)
    {
      assert group[pid] in members;
      var i :| 0 <= i < |members| && members[i] == group[pid];
      assert out[i].pid == pid;
    }
    forall pid | pid in Rows(procs, out)
      ensures pid in group
    {
      var i :| 0 <= i < |out| && out[i].pid == pid;
      assert members[i] in members;
    }
  }

  // An answer for a live target lists the rows of Members, each under its own
  // PID, in order.
  lemma GroupShape(v: View, target: ProcMeta, out: seq<ProcMeta>)
    returns (chain: set<nat>, root: ProcEntry, members: seq<ProcEntry>)
    requires Keyed(v.procs) && Live(v.procs, target) && IsGroup(v, target, Ok(out))
    ensures BuiltFrom(v, v.procs[target.pid], chain, root, members) && Decided(chain, members, target, Ok(out))
    ensures InTable(v.procs, root)
    ensures Rows(v.procs, out) == Members(v.procs, v.procs[target.pid], root)
    ensures forall i :: 0 <= i < |out| ==> out[i].pid == members[i].pid && InTable(v.procs, members[i])
  {
    var t := v.procs[target.pid];
    chain, root, members :| BuiltFrom(v, t, chain, root, members) && Decided(chain, members, target, Ok(out));
    RootInTable(v, chain, t, root);
    OutMatchesMembers(v.procs, t, chain, root, members, target, out);
    RowsAreMembers(v.procs, Members(v.procs, t, root), members, out);
  }

  // The target is in its own group, exactly once, with its own metadata, and no
  // PID is listed twice.
  lemma TargetIsMember(v: View, target: ProcMeta, out: seq<ProcMeta>)
    requires Keyed(v.procs) && Live(v.procs, target) && IsGroup(v, target, Ok(out))
    ensures target in out
    ensures forall i, j :: 0 <= i < j < |out| ==> out[i].pid != out[j].pid
  {
    var t := v.procs[target.pid];
    var chain, root, members := GroupShape(v, target, out);
    if t.pgid == 0 {
      var k: nat :| v.ClimbEndsAt(chain, t, k, root);
      ClimbIsReachable(v, chain, t, k);
      TreeMembersAreReachable(v.procs, t, root, t);
    }
    assert InTable(Members(v.procs, t, root), t);
    assert t in members;
    forall i, j | 0 <= i < j < |out|
      ensures out[i].pid != out[j].pid
    {
      assert Before(Members(v.procs, t, root), members[i], members[j]);
      assert InTable(v.procs, members[i]) && InTable(v.procs, members[j]);
    }
  }

  // A group never holds PID 1, a process without a parent, portpin, or any
  // ancestor of portpin.
  lemma GroupIsSafe(v: View, target: ProcMeta, out: seq<ProcMeta>, i: nat)
    requires Keyed(v.procs) && Live(v.procs, target) && IsGroup(v, target, Ok(out))
    requires i < |out|
    ensures out[i].pid in v.procs && out[i].pid != 1 && v.procs[out[i].pid].ppid != 0
    ensures !v.SelfOrAncestor(out[i].pid)
  {
    var chain, root, members := GroupShape(v, target, out);
    assert !Protected(members[i]) && members[i].pid !in chain;
  }

  // Nothing in the answer is PID 1, portpin, or an ancestor of portpin.
  ghost predicate Harmless(v: View, out: seq<ProcMeta>) {
    forall i :: 0 <= i < |out| ==> out[i].pid != 1 && !v.SelfOrAncestor(out[i].pid)
  }

  // A target that is no longer in the table is answered without a check, so
  // such an answer is only as safe as the target itself.
  lemma HarmlessIff(v: View, target: ProcMeta, out: seq<ProcMeta>)
    requires Keyed(v.procs) && IsGroup(v, target, Ok(out))
    ensures Harmless(v, out) <==> Live(v.procs, target) || (target.pid != 1 && !v.SelfOrAncestor(target.pid))
  {
    if Live(v.procs, target) {
      forall i | 0 <= i < |out|
        ensures out[i].pid != 1 && !v.SelfOrAncestor(out[i].pid)
      {
        GroupIsSafe(v, target, out, i);
      }
    } else {
      assert out[0] == target;
    }
  }

  // A member that is not seeded hangs on another member.
  lemma UnseededHasParent(procs: map<nat, ProcEntry>, t: ProcEntry, e: ProcEntry) returns (p: ProcEntry)
    requires Keyed(procs) && InTable(procs, t) && InTable(Members(procs, t, t), e) && e.pid !in Seeds(procs, t, t)
    ensures Link(p, e) && InTable(Members(procs, t, t), p)
    ensures Reaches(procs, {}, t, e)
  {
    var seeds := Seeds(procs, t, t);
    var path :| Path(procs, seeds, path) && path[0] == t && path[|path| - 1] == e;
    assert Path(procs, {}, path);
    LastLink(procs, seeds, t, e);
    p :| Link(p, e) && Reaches(procs, seeds, t, p) && (p == t || (InTable(procs, p) && p.pid !in seeds));
    ReachesSelf(procs, seeds, t);
  }

  // With process groups, no member but the target is a child of PID 1, and any
  // other session leader is a valid descendant of the target.
  lemma GroupSparesDaemons(v: View, target: ProcMeta, out: seq<ProcMeta>, i: nat)
    requires Keyed(v.procs) && Live(v.procs, target) && IsGroup(v, target, Ok(out))
    requires i < |out| && out[i].pid != target.pid && v.procs[target.pid].pgid != 0
    ensures out[i].pid in v.procs
    ensures var e := v.procs[out[i].pid];
      e.ppid != 1 && (e.sessionLeader ==> Reaches(v.procs, {}, v.procs[target.pid], e))
  {
    var t := v.procs[target.pid];
    var chain, root, members := GroupShape(v, target, out);
    var e := members[i];
    assert e in members;
    assert !Protected(e);
    if e.pid !in Seeds(v.procs, t, root) {
      var p := UnseededHasParent(v.procs, t, e);
      assert p in members;
    }
  }

  // Without process groups the group is exactly what valid child links reach
  // from the process the climb ends at.
  lemma TreeGroupIsReachableSet(v: View, target: ProcMeta, out: seq<ProcMeta>)
    returns (chain: set<nat>, k: nat, root: ProcEntry)
    requires Keyed(v.procs) && Live(v.procs, target) && IsGroup(v, target, Ok(out))
    requires v.procs[target.pid].pgid == 0
    ensures IsSelfChain(v, chain) && v.ClimbEndsAt(chain, v.procs[target.pid], k, root) && InTable(v.procs, root)
    ensures forall e :: InTable(v.procs, e) ==> (e.pid in Rows(v.procs, out) <==> Reaches(v.procs, {}, root, e))
  {
    var t := v.procs[target.pid];
    var members;
    chain, root, members := GroupShape(v, target, out);
    k :| v.ClimbEndsAt(chain, t, k, root);
    forall e | InTable(v.procs, e)
      ensures e.pid in Rows(v.procs, out) <==> Reaches(v.procs, {}, root, e)
    {
      TreeMembersAreReachable(v.procs, t, root, e);
    }
  }

  // Members come parents first: a member whose chain inside the group is
  // acyclic follows its parent. On a cyclic chain only the PIDs decide.
  lemma ParentsComeFirst(v: View, target: ProcMeta, out: seq<ProcMeta>, i: nat, j: nat)
    requires Keyed(v.procs) && Live(v.procs, target) && IsGroup(v, target, Ok(out))
    requires i < |out| && j < |out| && out[j].pid in v.procs && v.procs[out[j].pid].ppid == out[i].pid
    ensures i < j <==> Acyclic(Rows(v.procs, out), v.procs[out[j].pid]) || out[i].pid < out[j].pid
  {
    var chain, root, members := GroupShape(v, target, out);
    ParentPrecedesIff(Members(v.procs, v.procs[target.pid], root), members, i, j);
  }

  // ---- a descendant that is left out ----

  // portpin is 100; 20 -> 21 -> 22, with 21 in the process group of 20 and 22 in
  // its own.
  const MISSED_TABLE: seq<ProcEntry> := [
    ProcEntry(20, 10, 20, false, 10, "npm", ""),
    ProcEntry(21, 20, 20, false, 11, "sh", ""),
    ProcEntry(22, 21, 22, false, 12, "node", ""),
    ProcEntry(100, 0, 100, false, 90, "portpin", "")]

  // The table has these rows and no others.
  predicate FourRows(procs: map<nat, ProcEntry>, a: ProcEntry, b: ProcEntry, c: ProcEntry, d: ProcEntry) {
    && InTable(procs, a) && InTable(procs, b) && InTable(procs, c) && InTable(procs, d)
    && forall pid :: pid in procs ==> pid == a.pid || pid == b.pid || pid == c.pid || pid == d.pid
  }

  lemma ByPidOfFour(table: seq<ProcEntry>)
    requires |table| == 4 && DistinctPids(table)
    ensures FourRows(ByPid(table), table[0], table[1], table[2], table[3])
  {
    ByPidHolds(table);
    assert table[0] in table && table[1] in table && table[2] in table && table[3] in table;
    forall pid | pid in ByPid(table)
      ensures pid == table[0].pid || pid == table[1].pid || pid == table[2].pid || pid == table[3].pid
    {
      var i :| 0 <= i < 4 && table[i] == ByPid(table)[pid];
    }
  }

  // Whoever hangs on a seed, or on nobody, is not reached.
  lemma NotReached(procs: map<nat, ProcEntry>, seeds: set<nat>, t: ProcEntry, e: ProcEntry)
    requires e != t && e.ppid != t.pid && (e.ppid in seeds || e.ppid !in procs)
    ensures !Reaches(procs, seeds, t, e)
  {
    if Reaches(procs, seeds, t, e) {
      LastLink(procs, seeds, t, e);
    }
  }

  // b hangs on t in its process group, c on b in another, and p on nobody.
  ghost predicate Family(procs: map<nat, ProcEntry>, t: ProcEntry, b: ProcEntry, c: ProcEntry, p: ProcEntry) {
    && FourRows(procs, t, b, c, p) && t.pgid != 0 && Seeded(t, b) && !Seeded(t, c) && !Seeded(t, p)
    && Link(t, b) && Link(b, c) && c.pid != t.pid && t.ppid !in procs && p.ppid !in procs
  }

  lemma FamilyMembers(procs: map<nat, ProcEntry>, t: ProcEntry, b: ProcEntry, c: ProcEntry, p: ProcEntry)
    requires Family(procs, t, b, c, p)
    ensures Members(procs, t, t) == map[t.pid := t, b.pid := b]
  {
    var seeds := Seeds(procs, t, t);
    NotReached(procs, seeds, t, c);
    NotReached(procs, seeds, t, p);
  }

  lemma FamilyInOrder(procs: map<nat, ProcEntry>, t: ProcEntry, b: ProcEntry, c: ProcEntry, p: ProcEntry)
    requires Family(procs, t, b, c, p)
    ensures Ordered(map[t.pid := t, b.pid := b], [t, b])
  {
    var group := map[t.pid := t, b.pid := b];
    assert group.Keys == {t.pid, b.pid};
    assert CappedDepth(group, t, 2) == 0 && CappedDepth(group, t, 1) == 0 && CappedDepth(group, b, 2) == 1;
  }

  // t and b make up the group, although c descends from t.
  lemma FamilyGroup(v: View, t: ProcEntry, b: ProcEntry, c: ProcEntry, p: ProcEntry, target: ProcMeta)
    requires Family(v.procs, t, b, c, p) && IsSelfChain(v, {p.pid}) && Live(v.procs, target) && target.pid == t.pid
    requires !Protected(t) && !Protected(b) && t.pgid == t.pid
    ensures IsGroup(v, target, Ok([target, MetaOf(target, b)]))
    ensures forall out: seq<ProcMeta> :: IsGroup(v, target, Ok(out)) ==> forall i :: 0 <= i < |out| ==>
      out[i].pid != c.pid
    ensures Reaches(v.procs, {}, t, c)
  {
    FamilyMembers(v.procs, t, b, c, p);
    FamilyInOrder(v.procs, t, b, c, p);
    var answer := [target, MetaOf(target, b)];
    assert !DaemonLed(v.procs, t) && IsRoot(v, {p.pid}, t, t);
    assert BuiltFrom(v, t, {p.pid}, t, [t, b]) && Decided({p.pid}, [t, b], target, Ok(answer));
    forall out: seq<ProcMeta> | IsGroup(v, target, Ok(out))
      ensures out == answer
    {
      GroupUnique(v, target, Ok(out), Ok(answer));
    }
    assert Path(v.procs, {}, [t, b, c]);
  }

  // The only answer for 20 lists 20 and 21, although 22 descends from 20.
  lemma DescendantBelowSeedIsMissed(climbable: ProcEntry -> bool, target: ProcMeta)
    requires target.pid == 20 && target.startTime in {0, 10}
    ensures DistinctPids(MISSED_TABLE) && IsSelfChain(View(ByPid(MISSED_TABLE), 100, climbable), {100})
    ensures IsGroup(View(ByPid(MISSED_TABLE), 100, climbable), target, Ok([target, MetaOf(target, MISSED_TABLE[1])]))
    ensures forall out: seq<ProcMeta> :: IsGroup(View(ByPid(MISSED_TABLE), 100, climbable), target, Ok(out)) ==>
      forall i :: 0 <= i < |out| ==> out[i].pid != 22
    ensures Reaches(ByPid(MISSED_TABLE), {}, MISSED_TABLE[0], MISSED_TABLE[2])
  {
    var v, r := View(ByPid(MISSED_TABLE), 100, climbable), MISSED_TABLE;
    ByPidOfFour(r);
    OwnChain(v);
    FamilyGroup(v, r[0], r[1], r[2], r[3], target);
  }
}
