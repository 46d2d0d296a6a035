// Which processes join a group: the seeds taken from the target's process
// group, and the search through child links that starts at the root.
module Search {
  import opened Model
  import opened ProcGraph

  // c is a child of p that started when p was already running.
  predicate Link(p: ProcEntry, c: ProcEntry) {
    c.ppid == p.pid && c.pid != p.pid && c.startTime != 0 && c.startTime >= p.startTime
  }

  // A walk down valid child links that, after its first entry, never meets `avoid`.
  ghost predicate Path(procs: map<nat, ProcEntry>, avoid: set<nat>, path: seq<ProcEntry>) {
    && |path| > 0
    && (forall i :: 0 < i < |path| ==> InTable(procs, path[i]) && path[i].pid !in avoid)
    && (forall i :: 0 < i < |path| ==> Link(path[i - 1], path[i]))
  }

  ghost predicate Reaches(procs: map<nat, ProcEntry>, avoid: set<nat>, root: ProcEntry, e: ProcEntry) {
    exists path :: Path(procs, avoid, path) && path[0] == root && path[|path| - 1] == e
  }

  predicate Seeded(t: ProcEntry, e: ProcEntry) {
    e.pgid == t.pgid && (e.pid == t.pid || !Detached(e) || Protected(e))
  }

  function Seeds(procs: map<nat, ProcEntry>, t: ProcEntry, root: ProcEntry): set<nat> {
    {root.pid} + (if t.pgid != 0 then set pid | pid in procs && Seeded(t, procs[pid]) else {})
  }

  // The members of the group of t once the climb has settled on root.
  ghost function Members(procs: map<nat, ProcEntry>, t: ProcEntry, root: ProcEntry): map<nat, ProcEntry> {
    var seeds := Seeds(procs, t, root);
    map pid | pid in procs && (pid in seeds || Reaches(procs, seeds, root, procs[pid])) :: procs[pid]
  }

  lemma ReachesSelf(procs: map<nat, ProcEntry>, avoid: set<nat>, root: ProcEntry)
    ensures Reaches(procs, avoid, root, root)
  {
    assert Path(procs, avoid, [root]);
  }

  lemma ReachesFurther(procs: map<nat, ProcEntry>, avoid: set<nat>, root: ProcEntry, p: ProcEntry, c: ProcEntry)
    requires Reaches(procs, avoid, root, p) && Link(p, c) && InTable(procs, c) && c.pid !in avoid
    ensures Reaches(procs, avoid, root, c)
  {
    var path :| Path(procs, avoid, path) && path[0] == root && path[|path| - 1] == p;
    var longer := path + [c];
    assert Path(procs, avoid, longer);
    assert longer[0] == root && longer[|longer| - 1] == c;
  }

  lemma ReachesFromAbove(procs: map<nat, ProcEntry>, avoid: set<nat>, r: ProcEntry, root: ProcEntry, e: ProcEntry)
    requires Reaches(procs, avoid, root, e) && Link(r, root) && InTable(procs, root) && root.pid !in avoid
    ensures Reaches(procs, avoid, r, e)
  {
    var path :| Path(procs, avoid, path) && path[0] == root && path[|path| - 1] == e;
    var longer := [r] + path;
    assert Path(procs, avoid, longer);
    assert longer[0] == r && longer[|longer| - 1] == e;
  }

  // Whatever is reached, other than the root, is reached over a last link.
  lemma LastLink(procs: map<nat, ProcEntry>, avoid: set<nat>, root: ProcEntry, e: ProcEntry)
    requires Reaches(procs, avoid, root, e) && e != root
    ensures InTable(procs, e) && e.pid !in avoid
    ensures exists p ::
      Link(p, e) && Reaches(procs, avoid, root, p) && (p == root || (InTable(procs, p) && p.pid !in avoid))
  {
    var path :| Path(procs, avoid, path) && path[0] == root && path[|path| - 1] == e;
    var init := path[..|path| - 1];
    assert Path(procs, avoid, init) && init[0] == root;
    assert Link(path[|path| - 1 - 1], e);
  }

  // `s` holds every valid child of the root and of each of its non-seed entries.
  ghost predicate Closed(procs: map<nat, ProcEntry>, seeds: set<nat>, root: ProcEntry, s: set<nat>) {
    forall p: ProcEntry, c: ProcEntry ::
      p.pid in s && InTable(procs, p) && (p == root || p.pid !in seeds) && Link(p, c) && InTable(procs, c) ==>
        c.pid in s
  }

  // A closed set that holds the root holds everything the search can reach.
  lemma {:induction false} ClosedSetHoldsPath(procs: map<nat, ProcEntry>, avoid: set<nat>, closed: set<nat>,
      path: seq<ProcEntry>, i: nat)
    requires Path(procs, avoid, path) && i < |path|
    requires InTable(procs, path[0]) && path[0].pid in closed
    requires Closed(procs, avoid, path[0], closed)
    ensures path[i].pid in closed
  {
    if i > 0 {
      ClosedSetHoldsPath(procs, avoid, closed, path, i - 1);
    }
  }

  // ---- what the search finds ----

  // The members form the least set that holds the seeds and every valid child
  // of the root and of each entry the search itself added.
  lemma MembersAreLeastClosure(procs: map<nat, ProcEntry>, t: ProcEntry, root: ProcEntry)
    requires Keyed(procs) && InTable(procs, root)
    ensures var m, seeds := Members(procs, t, root).Keys, Seeds(procs, t, root);
      && seeds * procs.Keys <= m
      && Closed(procs, seeds, root, m)
      && forall s: set<nat> :: seeds <= s && Closed(procs, seeds, root, s) ==> m <= s
  {
    var members, seeds := Members(procs, t, root), Seeds(procs, t, root);
    ReachesSelf(procs, seeds, root);
    forall p: ProcEntry, c: ProcEntry |
      p.pid in members && InTable(procs, p) && (p == root || p.pid !in seeds) && Link(p, c) && InTable(procs, c)
      ensures c.pid in members
    {
      if c.pid !in seeds {
        ReachesFurther(procs, seeds, root, p, c);
      }
    }
    forall s: set<nat>, pid | seeds <= s && Closed(procs, seeds, root, s) && pid in members
      ensures pid in s
    {
      if pid !in seeds {
        var path :| Path(procs, seeds, path) && path[0] == root && path[|path| - 1] == procs[pid];
        ClosedSetHoldsPath(procs, seeds, s, path, |path| - 1);
      }
    }
  }

  // Coming back to the root on the way reaches nothing new.
  lemma {:induction false} ReturnsToRootAreUseless(procs: map<nat, ProcEntry>, root: ProcEntry, path: seq<ProcEntry>)
    requires Keyed(procs) && InTable(procs, root)
    requires Path(procs, {}, path) && path[0] == root
    ensures Reaches(procs, {root.pid}, root, path[|path| - 1])
    decreases |path|
  {
    if i :| 0 < i < |path| && path[i].pid == root.pid {
      assert InTable(procs, path[i]);
      ReturnsToRootAreUseless(procs, root, path[i..]);
    } else {
      assert Path(procs, {root.pid}, path);
    }
  }

  // Without process groups the members are exactly what valid child links reach
  // from the root.
  lemma TreeMembersAreReachable(procs: map<nat, ProcEntry>, t: ProcEntry, root: ProcEntry, e: ProcEntry)
    requires Keyed(procs) && InTable(procs, root) && InTable(procs, e) && t.pgid == 0
    ensures e.pid in Members(procs, t, root) <==> Reaches(procs, {}, root, e)
  {
    if Reaches(procs, {}, root, e) {
      var path :| Path(procs, {}, path) && path[0] == root && path[|path| - 1] == e;
      ReturnsToRootAreUseless(procs, root, path);
    }
    if e.pid == root.pid {
      ReachesSelf(procs, {}, root);
    } else if e.pid in Members(procs, t, root) {
      var path :| Path(procs, {root.pid}, path) && path[0] == root && path[|path| - 1] == e;
      assert Path(procs, {}, path);
    }
  }

  // The climb only follows links the search can walk back down.
  lemma {:induction false} ClimbIsReachable(v: View, chain: set<nat>, t: ProcEntry, k: nat)
    requires Keyed(v.procs) && InTable(v.procs, t) && v.ClimbAt(chain, t, k).Some?
    ensures Reaches(v.procs, {}, v.ClimbAt(chain, t, k).value, t)
  {
    if k == 0 {
      ReachesSelf(v.procs, {}, t);
    } else {
      ClimbIsReachable(v, chain, t, k - 1);
      ClimbIsInTable(v, chain, t, k - 1);
      ReachesFromAbove(v.procs, {}, v.ClimbAt(chain, t, k).value, v.ClimbAt(chain, t, k - 1).value, t);
    }
  }

  // ---- "every descendant" ----

  // Below a seed the root reaches, every valid child is a seed as well.
  ghost predicate SeedsCovered(procs: map<nat, ProcEntry>, t: ProcEntry, root: ProcEntry) {
    var seeds := Seeds(procs, t, root);
    forall s: ProcEntry, c: ProcEntry ::
      s.pid in seeds && s != root && InTable(procs, s) && Reaches(procs, {}, root, s) ==>
        Link(s, c) && InTable(procs, c) ==> c.pid in seeds
  }

  lemma {:induction false} PathStaysInMembers(procs: map<nat, ProcEntry>, t: ProcEntry, root: ProcEntry,
      path: seq<ProcEntry>)
    requires Keyed(procs) && InTable(procs, root)
    requires Path(procs, {}, path) && path[0] == root
    requires SeedsCovered(procs, t, root)
    ensures path[|path| - 1].pid in Members(procs, t, root)
    decreases |path|
  {
    MembersAreLeastClosure(procs, t, root);
    if |path| > 1 {
      var init := path[..|path| - 1];
      var p, c := path[|path| - 2], path[|path| - 1];
      PathStaysInMembers(procs, t, root, init);
      assert Path(procs, {}, init) && init[0] == root && init[|init| - 1] == p;
      assert Link(path[|path| - 1 - 1], path[|path| - 1]) && InTable(procs, c);
      assert InTable(procs, p);
    }
  }

  // The group holds every descendant of the root exactly when none of them but
  // the root is a seed with a valid child that is not a seed.
  lemma AllDescendantsIff(procs: map<nat, ProcEntry>, t: ProcEntry, root: ProcEntry)
    requires Keyed(procs) && InTable(procs, root)
    ensures (forall e :: InTable(procs, e) && Reaches(procs, {}, root, e) ==> e.pid in Members(procs, t, root))
      <==> SeedsCovered(procs, t, root)
  {
    var m, seeds := Members(procs, t, root), Seeds(procs, t, root);
    if forall e :: InTable(procs, e) && Reaches(procs, {}, root, e) ==> e.pid in m {
      forall s: ProcEntry, c: ProcEntry |
        && s.pid in seeds && s != root && InTable(procs, s) && Reaches(procs, {}, root, s)
        && Link(s, c) && InTable(procs, c)
        ensures c.pid in seeds
      {
        ReachesFurther(procs, {}, root, s, c);
        if c.pid !in seeds {
          LastLink(procs, seeds, root, c);
        }
      }
    }
    if SeedsCovered(procs, t, root) {
      forall e | InTable(procs, e) && Reaches(procs, {}, root, e)
        ensures e.pid in m
      {
        var path :| Path(procs, {}, path) && path[0] == root && path[|path| - 1] == e;
        PathStaysInMembers(procs, t, root, path);
      }
    }
  }

  // ---- the loops ----

  // The two indexes of the table.
  method Index(table: seq<ProcEntry>) returns (byPid: map<nat, ProcEntry>, children: map<nat, seq<ProcEntry>>)
    ensures byPid == ByPid(table)
    ensures forall e :: e in table <==> e.ppid in children && e in children[e.ppid]
    ensures forall ppid :: ppid in children ==> forall e :: e in children[ppid] ==> e in table && e.ppid == ppid
  {
    byPid, children := map[], map[];
    for i := 0 to |table|
      invariant byPid == ByPid(table[..i])
      invariant forall e :: e in table[..i] <==> e.ppid in children && e in children[e.ppid]
      invariant forall ppid :: ppid in children ==> forall e :: e in children[ppid] ==>
        e in table[..i] && e.ppid == ppid
    {
      var e := table[i];
      assert table[..i + 1] == table[..i] + [e];
      assert table[..i + 1][..i] == table[..i];
      byPid := byPid[e.pid := e];
      children := children[e.ppid := (if e.ppid in children then children[e.ppid] else []) + [e]];
    }
    assert table[..|table|] == table;
  }

  // The root and the entries of the target's process group.
  method SeedGroup(table: seq<ProcEntry>, t: ProcEntry, root: ProcEntry, ghost procs: map<nat, ProcEntry>)
    returns (group: map<nat, ProcEntry>)
    requires Keyed(procs) && forall e :: e in table <==> InTable(procs, e)
    requires root in table
    ensures group == map pid | pid in procs && pid in Seeds(procs, t, root) :: procs[pid]
  {
    group := map[root.pid := root];
    if t.pgid != 0 {
      for i := 0 to |table|
        invariant forall pid :: pid in group ==> pid in procs && group[pid] == procs[pid]
        invariant forall pid :: pid in procs ==>
          (pid in group <==> pid == root.pid || (procs[pid] in table[..i] && Seeded(t, procs[pid])))
      {
        var e := table[i];
        assert table[..i + 1] == table[..i] + [e];
        assert e in table;
        if e.pgid != t.pgid || (e.pid != t.pid && Detached(e) && !Protected(e)) {
          continue;
        }
        group := group[e.pid := e];
      }
      assert table[..|table|] == table;
    }
  }

  ghost predicate ChildIndex(children: map<nat, seq<ProcEntry>>, procs: map<nat, ProcEntry>) {
    && (forall e :: InTable(procs, e) <==> e.ppid in children && e in children[e.ppid])
    && (forall ppid :: ppid in children ==> forall e :: e in children[ppid] ==> InTable(procs, e) && e.ppid == ppid)
  }

  function ChildrenOf(children: map<nat, seq<ProcEntry>>, p: ProcEntry): seq<ProcEntry> {
    if p.pid in children then children[p.pid] else []
  }

  // One round grows the group by exactly the entries it found below p.
  ghost predicate Round(procs: map<nat, ProcEntry>, group: map<nat, ProcEntry>, p: ProcEntry,
      grown: map<nat, ProcEntry>, found: seq<ProcEntry>) {
    && (forall pid :: pid in group ==> pid in grown && grown[pid] == group[pid])
    && (forall pid :: pid in grown && pid !in group ==> grown[pid] in found && grown[pid].pid == pid)
    && (forall c :: c in found ==> InTable(procs, c) && Link(p, c))
    && (forall c :: c in found ==> c.pid !in group && c.pid in grown && grown[c.pid] == c)
    && (forall c :: InTable(procs, c) && Link(p, c) ==> c.pid in grown)
  }

  // Adds to the group, and reports for the queue, the children of p that are
  // valid and not yet in the group.
  method Expand(children: map<nat, seq<ProcEntry>>, p: ProcEntry, group: map<nat, ProcEntry>,
      ghost procs: map<nat, ProcEntry>)
    returns (grown: map<nat, ProcEntry>, found: seq<ProcEntry>)
    requires ChildIndex(children, procs)
    ensures Round(procs, group, p, grown, found)
  {
    var kids := ChildrenOf(children, p);
    grown, found := group, [];
    for i := 0 to |kids|
      invariant forall pid :: pid in group ==> pid in grown && grown[pid] == group[pid]
      invariant forall pid :: pid in grown && pid !in group ==> grown[pid] in found && grown[pid].pid == pid
      invariant forall c :: c in found ==>
        c in kids && Link(p, c) && c.pid !in group && c.pid in grown && grown[c.pid] == c
      invariant forall j :: 0 <= j < i && Link(p, kids[j]) ==> kids[j].pid in grown
    {
      var c := kids[i];
      assert c in kids;
      if c.pid in grown || c.pid == p.pid || c.startTime == 0 || c.startTime < p.startTime {
        continue;
      }
      grown := grown[c.pid := c];
      found := found + [c];
    }
  }

  // What the search knows between two rounds: everything in it is reachable, ...
  ghost predicate SearchSound(procs: map<nat, ProcEntry>, avoid: set<nat>, root: ProcEntry,
      group: map<nat, ProcEntry>, queue: seq<ProcEntry>) {
    && avoid <= group.Keys
    && (forall pid :: pid in group ==> pid in procs && group[pid] == procs[pid])
    && (forall pid :: pid in group && pid !in avoid ==> Reaches(procs, avoid, root, group[pid]))
    && (forall q :: q in queue ==> InTable(procs, q) && Reaches(procs, avoid, root, q))
  }

  // ... and the entries it may expand are queued or, in `done`, fully expanded.
  ghost predicate SearchCovers(procs: map<nat, ProcEntry>, avoid: set<nat>, root: ProcEntry,
      group: map<nat, ProcEntry>, queue: seq<ProcEntry>, done: set<nat>) {
    && (forall pid :: pid in group && (pid == root.pid || pid !in avoid) ==> pid in done || group[pid] in queue)
    && (forall d, c :: d in done && d in procs && Link(procs[d], c) && InTable(procs, c) ==> c.pid in group)
  }

  lemma RoundKeepsSound(procs: map<nat, ProcEntry>, avoid: set<nat>, root: ProcEntry,
      group: map<nat, ProcEntry>, p: ProcEntry, rest: seq<ProcEntry>, grown: map<nat, ProcEntry>, found: seq<ProcEntry>)
    requires SearchSound(procs, avoid, root, group, [p] + rest)
    requires Round(procs, group, p, grown, found)
    ensures SearchSound(procs, avoid, root, grown, rest + found)
  {
    assert p in [p] + rest;
    forall c | c in found
      ensures Reaches(procs, avoid, root, c)
    {
      ReachesFurther(procs, avoid, root, p, c);
    }
    forall q | q in rest + found
      ensures InTable(procs, q) && Reaches(procs, avoid, root, q)
    {
      if q in rest {
        assert q in [p] + rest;
      }
    }
  }

  lemma RoundKeepsCover(procs: map<nat, ProcEntry>, avoid: set<nat>, root: ProcEntry, group: map<nat, ProcEntry>,
      p: ProcEntry, rest: seq<ProcEntry>, done: set<nat>, grown: map<nat, ProcEntry>, found: seq<ProcEntry>)
    requires InTable(procs, p) && forall pid :: pid in group ==> group[pid].pid == pid
    requires SearchCovers(procs, avoid, root, group, [p] + rest, done)
    requires Round(procs, group, p, grown, found)
    ensures SearchCovers(procs, avoid, root, grown, rest + found, done + {p.pid})
  {
    forall pid | pid in grown && (pid == root.pid || pid !in avoid)
      ensures pid in done + {p.pid} || grown[pid] in rest + found
    {
      if pid in group && pid !in done {
        assert group[pid] in [p] + rest;
      }
    }
  }

  lemma HeadAndRest<T>(queue: seq<T>)
    requires |queue| > 0
    ensures queue == [queue[0]] + queue[1..]
  {
  }

  lemma RoundShrinks(procs: map<nat, ProcEntry>, group: map<nat, ProcEntry>, p: ProcEntry, grown: map<nat, ProcEntry>,
      found: seq<ProcEntry>)
    requires Round(procs, group, p, grown, found)
    ensures found == [] ==> procs.Keys - grown.Keys == procs.Keys - group.Keys
    ensures found != [] ==> procs.Keys - grown.Keys < procs.Keys - group.Keys
  {
    if found != [] {
      assert found[0].pid in procs.Keys - group.Keys;
    }
  }

  lemma SearchComplete(procs: map<nat, ProcEntry>, avoid: set<nat>, root: ProcEntry, group: map<nat, ProcEntry>,
      done: set<nat>)
    requires Keyed(procs) && InTable(procs, root) && root.pid in avoid
    requires SearchSound(procs, avoid, root, group, []) && SearchCovers(procs, avoid, root, group, [], done)
    ensures group == map pid | pid in procs && (pid in avoid || Reaches(procs, avoid, root, procs[pid])) :: procs[pid]
  {
    assert Closed(procs, avoid, root, group.Keys);
    forall pid | pid in procs && Reaches(procs, avoid, root, procs[pid])
      ensures pid in group
    {
      var path :| Path(procs, avoid, path) && path[0] == root && path[|path| - 1] == procs[pid];
      ClosedSetHoldsPath(procs, avoid, group.Keys, path, |path| - 1);
    }
  }

  // The search for descendants: a queue of entries whose children are still to
  // be looked at. Seeded entries other than the root are never queued.
  method Grow(children: map<nat, seq<ProcEntry>>, seeded: map<nat, ProcEntry>, root: ProcEntry,
      ghost procs: map<nat, ProcEntry>)
    returns (group: map<nat, ProcEntry>)
    requires Keyed(procs) && InTable(procs, root) && root.pid in seeded && ChildIndex(children, procs)
    requires forall pid :: pid in seeded ==> pid in procs && seeded[pid] == procs[pid]
    ensures group ==
      map pid | pid in procs && (pid in seeded || Reaches(procs, seeded.Keys, root, procs[pid])) :: procs[pid]
  {
    ghost var avoid := seeded.Keys;
    ReachesSelf(procs, avoid, root);
    group := seeded;
    var queue := [root];
    ghost var done: set<nat> := {};
    while |queue| > 0
      invariant SearchSound(procs, avoid, root, group, queue)
      invariant SearchCovers(procs, avoid, root, group, queue, done)
      decreases procs.Keys - group.Keys, |queue|
    {
      var p := queue[0];
      var grown, found := Expand(children, p, group, procs);
      ghost var rest := queue[1..];
      HeadAndRest(queue);
      RoundKeepsSound(procs, avoid, root, group, p, rest, grown, found);
      RoundKeepsCover(procs, avoid, root, group, p, rest, done, grown, found);
      RoundShrinks(procs, group, p, grown, found);
      group, queue, done := grown, queue[1..] + found, done + {p.pid};
    }
    SearchComplete(procs, avoid, root, group, done);
  }
}
