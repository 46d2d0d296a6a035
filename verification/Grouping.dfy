// An ordered group of pinned processes with one primary.
module Grouping {
  import opened Model
  import opened Kernel
  import opened Machine
  import opened Pinning
  import opened GroupErrors

  // The descriptors are those of `base` and one for each controller of `cs` that
  // has a pidfd.
  ghost predicate Split(fds: map<int, Instance>, base: map<int, Instance>, cs: set<LinuxController>) {
    && (forall c :: c in cs ==> c.Named(fds))
    && (forall c, d :: c in cs && d in cs && c.fd >= 0 && c.fd == d.fd ==> c == d)
    && (forall c :: c in cs && c.fd >= 0 ==> c.fd !in base)
    && (forall fd :: fd in base ==> fd in fds && fds[fd] == base[fd])
    && (forall fd :: fd in fds && fd !in base ==> exists c :: c in cs && c.fd == fd)
  }

  // These controllers are valid, and theirs are portpin's descriptors beyond `base`.
  ghost predicate Owned(m: Machine, base: map<int, Instance>, cs: set<LinuxController>)
    reads m, cs
  {
    (forall c :: c in cs ==> c.valid) && Split(m.fds, base, cs)
  }

  lemma SplitLess(fds: map<int, Instance>, base: map<int, Instance>, cs: set<LinuxController>, c: LinuxController)
    requires Split(fds, base, cs) && c in cs && forall fd :: fd in fds ==> fd >= 0
    ensures Split(if c.fd >= 0 then fds - {c.fd} else fds, base, cs - {c})
  {
    var less := if c.fd >= 0 then fds - {c.fd} else fds;
    forall d | d in cs - {c}
      ensures d.Named(less)
    {
      assert c.fd >= 0 && d.fd >= 0 ==> d.fd != c.fd;
    }
    forall fd | fd in less && fd !in base
      ensures exists d :: d in cs - {c} && d.fd == fd
    {
      var d :| d in cs && d.fd == fd;
      assert d in cs - {c};
    }
  }

  lemma SplitMore(fds: map<int, Instance>, base: map<int, Instance>, cs: set<LinuxController>, c: LinuxController,
      fds': map<int, Instance>)
    requires Split(fds, base, cs) && c.Named(fds')
    requires if c.fd >= 0 then c.fd !in fds && c.fd in fds' && fds' == fds[c.fd := fds'[c.fd]] else fds' == fds
    ensures Split(fds', base, cs + {c})
  {
    forall fd | fd in fds' && fd !in base
      ensures exists d :: d in cs + {c} && d.fd == fd
    {
      if fd in fds {
        var d :| d in cs && d.fd == fd;
      } else {
        assert c in cs + {c} && c.fd == fd;
      }
    }
  }

  function Elements(cs: seq<LinuxController>): set<LinuxController> {
    set c | c in cs
  }

  lemma OwnedNothing(m: Machine, base: map<int, Instance>)
    requires Owned(m, base, {})
    ensures m.fds == base
  {
    var fds := m.fds;
    assert forall fd :: fd in fds ==> fd in base;
    assert forall fd :: fd in base ==> fd in fds && fds[fd] == base[fd];
    assert fds == base;
  }

  method CloseOne(m: Machine, c: LinuxController, ghost base: map<int, Instance>, ghost cs: set<LinuxController>)
    requires m.Valid() && Owned(m, base, cs) && (c.valid ==> c in cs)
    modifies c`valid, c`closes, m`fds, m`facts
    ensures m.Valid() && Owned(m, base, cs - {c})
    ensures !c.valid && c.closes == old(c.closes) + 1
    ensures m.facts == old(m.facts) || m.facts == old(m.facts) + [Closed(c.fd, m.k)]
  {
    if c.valid {
      SplitLess(m.fds, base, cs, c);
    }
    c.Close(m);
    assert c !in cs ==> cs - {c} == cs;
  }

  lemma OneListed(cs: seq<LinuxController>, i: nat, held: set<LinuxController>)
    requires i < |cs|
    ensures forall c :: c in cs[..i + 1] <==> c in cs[..i] || c == cs[i]
    ensures forall c :: multiset(cs[..i + 1])[c] == multiset(cs[..i])[c] + if c == cs[i] then 1 else 0
    ensures held - Elements(cs[..i + 1]) == held - Elements(cs[..i]) - {cs[i]}
  {
    assert cs[..i + 1] == cs[..i] + [cs[i]];
  }

  // Closes every controller of the sequence, as often as it is listed.
  method CloseEach(m: Machine, cs: seq<LinuxController>, ghost base: map<int, Instance>,
      ghost held: set<LinuxController>)
    requires m.Valid() && Owned(m, base, held)
    requires forall c :: c in cs && c.valid ==> c in held
    modifies cs, m`fds, m`facts
    ensures m.Valid() && Owned(m, base, held - Elements(cs))
    ensures forall c :: c in cs ==> !c.valid && c.closes == old(c.closes) + multiset(cs)[c]
    ensures HandlesOnly(old(m.facts), m.facts)
  {
    for i := 0 to |cs|
      invariant m.Valid() && Owned(m, base, held - Elements(cs[..i]))
      invariant forall c :: c in cs ==> if c in cs[..i] then !c.valid else c.valid ==> c in held
      invariant forall c :: c in cs ==> c.closes == old(c.closes) + multiset(cs[..i])[c]
      invariant HandlesOnly(old(m.facts), m.facts)
    {
      OneListed(cs, i, held);
      CloseOne(m, cs[i], base, held - Elements(cs[..i]));
    }
    assert cs[..|cs|] == cs;
  }

  // ---- building the group ----

  // The positions of the metas that were kept.
  function Kept(fates: seq<Option<PinError>>): seq<nat> {
    if fates == [] then []
    else
      var init, last := fates[..|fates| - 1], |fates| - 1;
      if fates[last] == None then Kept(init) + [last] else Kept(init)
  }

  lemma {:induction false} KeptAscends(fates: seq<Option<PinError>>)
    ensures forall j :: 0 <= j < |Kept(fates)| ==> Kept(fates)[j] < |fates| && fates[Kept(fates)[j]] == None
    ensures forall i, j :: 0 <= i < j < |Kept(fates)| ==> Kept(fates)[i] < Kept(fates)[j]
    ensures forall i :: 0 <= i < |fates| && fates[i] == None ==> i in Kept(fates)
  {
    if fates != [] {
      KeptAscends(fates[..|fates| - 1]);
    }
  }

  // The fates the pin calls decided: the primary is not pinned again.
  function PinCalls(metas: seq<ProcMeta>, primaryPid: nat, fates: seq<Option<PinError>>): seq<Option<PinError>>
    requires |fates| <= |metas|
  {
    if fates == [] then []
    else
      var init, last := fates[..|fates| - 1], |fates| - 1;
      if metas[last].pid == primaryPid then PinCalls(metas, primaryPid, init)
      else PinCalls(metas, primaryPid, init) + [fates[last]]
  }

  // The PIDs of the metas that were kept, in order.
  function KeptPids(metas: seq<ProcMeta>, fates: seq<Option<PinError>>): seq<nat>
    requires |fates| <= |metas|
  {
    if fates == [] then []
    else
      var init, last := fates[..|fates| - 1], |fates| - 1;
      if fates[last] == None then KeptPids(metas, init) + [metas[last].pid] else KeptPids(metas, init)
  }

  lemma {:induction false} KeptPidsAt(metas: seq<ProcMeta>, fates: seq<Option<PinError>>)
    requires |fates| <= |metas|
    ensures |KeptPids(metas, fates)| == |Kept(fates)|
    ensures forall j :: 0 <= j < |Kept(fates)| ==>
      Kept(fates)[j] < |fates| && KeptPids(metas, fates)[j] == metas[Kept(fates)[j]].pid
  {
    if fates != [] {
      KeptPidsAt(metas, fates[..|fates| - 1]);
    }
  }

  predicate Names(metas: seq<ProcMeta>, pid: nat) {
    exists i :: 0 <= i < |metas| && metas[i].pid == pid
  }

  // The PIDs of a group: those kept, and at the end the primary's when the metas
  // do not name it.
  function GroupPids(metas: seq<ProcMeta>, primaryPid: nat, fates: seq<Option<PinError>>): seq<nat>
    requires |fates| <= |metas|
  {
    if Names(metas, primaryPid) then KeptPids(metas, fates) else KeptPids(metas, fates) + [primaryPid]
  }

  // Skipped members were gone or replaced; the primary is never skipped.
  ghost predicate FatesAllowed(metas: seq<ProcMeta>, primaryPid: nat, fates: seq<Option<PinError>>) {
    |fates| <= |metas| && forall i :: 0 <= i < |fates| ==>
      && (metas[i].pid == primaryPid ==> fates[i] == None)
      && (fates[i] == None || fates[i] == Some(ProcessGone) || fates[i] == Some(IdentityChanged))
  }

  // A pin that leaves the group to be torn down: it succeeded, or its process was
  // gone or replaced.
  predicate Tolerated(fate: Option<PinError>) {
    fate == None || fate == Some(ProcessGone) || fate == Some(IdentityChanged)
  }

  lemma {:induction false} PinCallsAreTolerated(metas: seq<ProcMeta>, primaryPid: nat, fates: seq<Option<PinError>>)
    requires FatesAllowed(metas, primaryPid, fates)
    ensures forall x :: x in PinCalls(metas, primaryPid, fates) ==> Tolerated(x)
  {
    if fates != [] {
      PinCallsAreTolerated(metas, primaryPid, fates[..|fates| - 1]);
    }
  }

  // c stands for meta in a group of this primary.
  ghost predicate StandsFor(primary: LinuxController, c: LinuxController, meta: ProcMeta) {
    && c.meta.pid == meta.pid
    && (c == primary <==> meta.pid == primary.meta.pid)
    && (c != primary && meta.startTime != 0 ==> c.meta.startTime == meta.startTime)
  }

  // One controller for each kept meta, in the order of the metas.
  ghost predicate Assembled(primary: LinuxController, metas: seq<ProcMeta>, kept: seq<nat>,
      members: seq<LinuxController>) {
    && |members| == |kept|
    && (forall j :: 0 <= j < |kept| ==> kept[j] < |metas| && StandsFor(primary, members[j], metas[kept[j]]))
    && (forall i, j :: 0 <= i < j < |members| && members[i] == members[j] ==> members[i] == primary)
  }

  // The PIDs are those of the controllers, position by position.
  ghost predicate Aligned(members: seq<LinuxController>, pids: seq<nat>) {
    |pids| == |members| && forall j :: 0 <= j < |members| ==> pids[j] == members[j].meta.pid
  }

  // Every pidfd of these controllers was opened since `from`.
  ghost predicate OpenedSince(fds: map<int, Instance>, facts: seq<Fact>, from: nat, cs: set<LinuxController>) {
    forall c :: c in cs && c.fd >= 0 ==>
      c.fd in fds && exists n :: from <= n < |facts| && Opens(facts[n], c.fd, fds[c.fd])
  }

  lemma OpenedSinceKept(fds: map<int, Instance>, facts: seq<Fact>, from: nat, cs: set<LinuxController>,
      fds': map<int, Instance>, facts': seq<Fact>)
    requires OpenedSince(fds, facts, from, cs) && facts <= facts'
    requires forall fd :: fd in fds ==> fd in fds' && fds'[fd] == fds[fd]
    ensures OpenedSince(fds', facts', from, cs)
  {
    forall c | c in cs && c.fd >= 0
      ensures exists n :: from <= n < |facts'| && Opens(facts'[n], c.fd, fds'[c.fd])
    {
      var n :| from <= n < |facts| && Opens(facts[n], c.fd, fds[c.fd]);
      assert facts'[n] == facts[n];
    }
  }

  predicate EndsWith(members: seq<LinuxController>, c: LinuxController) {
    |members| > 0 && members[|members| - 1] == c
  }

  // A finished group: the primary at its own place, or at the end when the metas
  // do not name it.
  ghost predicate IsGroup(primary: LinuxController, metas: seq<ProcMeta>, fates: seq<Option<PinError>>,
      members: seq<LinuxController>) {
    && |fates| == |metas| && FatesAllowed(metas, primary.meta.pid, fates)
    && (if Names(metas, primary.meta.pid) then Assembled(primary, metas, Kept(fates), members)
        else EndsWith(members, primary) && Assembled(primary, metas, Kept(fates), members[..|members| - 1]))
  }

  // What the loop over the metas has gathered.
  ghost predicate Taken(primary: LinuxController, metas: seq<ProcMeta>, fates: seq<Option<PinError>>,
      members: seq<LinuxController>, pids: seq<nat>) {
    && FatesAllowed(metas, primary.meta.pid, fates) && Assembled(primary, metas, Kept(fates), members)
    && Aligned(members, pids) && pids == KeptPids(metas, fates)
  }

  // One more member for this meta, or none.
  ghost predicate Admitted(primary: LinuxController, meta: ProcMeta, fate: Option<PinError>,
      members: seq<LinuxController>, longer: seq<LinuxController>) {
    && (meta.pid == primary.meta.pid ==> fate == None)
    && if fate == None
       then |longer| == |members| + 1 && longer[..|members|] == members && StandsFor(primary, longer[|members|], meta)
         && (longer[|members|] == primary || longer[|members|] !in members)
       else longer == members
  }

  // Taking up one more meta, kept or skipped.
  lemma TakenUp(primary: LinuxController, metas: seq<ProcMeta>, fates: seq<Option<PinError>>, fate: Option<PinError>,
      members: seq<LinuxController>, longer: seq<LinuxController>, pids: seq<nat>)
    requires |fates| < |metas| && Taken(primary, metas, fates, members, pids)
    requires fate == None || fate == Some(ProcessGone) || fate == Some(IdentityChanged)
    requires Admitted(primary, metas[|fates|], fate, members, longer)
    ensures Taken(primary, metas, fates + [fate], longer, if fate == None then pids + [metas[|fates|].pid] else pids)
  {
    assert (fates + [fate])[..|fates|] == fates;
    if fate == None {
      assert forall j :: 0 <= j < |members| ==> longer[j] == members[j];
    }
  }

  // The pin calls grow with the fates.
  lemma PinsGrow(before: seq<Option<PinError>>, metas: seq<ProcMeta>, primaryPid: nat, fates: seq<Option<PinError>>,
      fate: Option<PinError>)
    requires |fates| < |metas|
    ensures before + PinCalls(metas, primaryPid, fates + [fate])
      == before + PinCalls(metas, primaryPid, fates) + if metas[|fates|].pid == primaryPid then [] else [fate]
  {
    assert (fates + [fate])[..|fates|] == fates;
  }

  // The bookkeeping of a group under construction: what it owns and has opened.
  ghost predicate Holding(m: Machine, primary: LinuxController, members: seq<LinuxController>,
      own: set<LinuxController>, base: map<int, Instance>, from: nat)
    reads m, primary, own
  {
    && primary !in own && own == Elements(members) - {primary}
    && Owned(m, base, {primary} + own)
    && (forall c :: c in own ==> c.closes == 0 && (m.hasPidfd ==> c.fd >= 0))
    && OpenedSince(m.fds, m.facts, from, own)
  }

  // Admitting a member, or skipping one, keeps the books.
  lemma HoldingNext(m: Machine, primary: LinuxController, members: seq<LinuxController>, own: set<LinuxController>,
      base: map<int, Instance>, from: nat, c: LinuxController, fds: map<int, Instance>, facts: seq<Fact>)
    requires primary !in own && own == Elements(members) - {primary} && c != primary
    requires forall d :: d in own + {c} ==> d.closes == 0 && (m.hasPidfd ==> d.fd >= 0)
    requires OpenedSince(fds, facts, from, own) && from <= |facts|
    requires Owned(m, base, {primary} + own + {c})
    requires c.fd >= 0 ==> c.fd !in fds && c.fd in m.fds && m.fds == fds[c.fd := m.fds[c.fd]]
    requires if c.fd >= 0 then OpenedOne(facts, m.facts, c.fd, m.fds[c.fd])
      else m.fds == fds && facts <= m.facts
    ensures Holding(m, primary, members + [c], own + {c}, base, from)
  {
    OpenedSinceKept(fds, facts, from, own, m.fds, m.facts);
    if c.fd >= 0 {
      assert Opens(m.facts[|facts|], c.fd, m.fds[c.fd]);
    }
    assert {primary} + (own + {c}) == {primary} + own + {c};
    assert Elements(members + [c]) == Elements(members) + {c};
  }

  // Takes up one member: the primary as it is, any other by a pin call.
  method Admit(m: Machine, primary: LinuxController, meta: ProcMeta, members: seq<LinuxController>,
      ghost base: map<int, Instance>, ghost own: set<LinuxController>, ghost from: nat)
    returns (fate: Option<PinError>, longer: seq<LinuxController>, ghost more: set<LinuxController>)
    requires m.Valid() && Holding(m, primary, members, own, base, from) && from <= |m.facts|
    modifies m`k, m`calls, m`fds, m`facts, m`pins, m`handedOut
    ensures m.Valid() && Later(old(m.k), m.k)
    ensures HandlesOnly(old(m.facts), m.facts)
    ensures m.pins == if meta.pid == primary.meta.pid then old(m.pins) else old(m.pins) + [fate]
    ensures fresh(more) && m.handedOut == old(m.handedOut) + more
    ensures Holding(m, primary, longer, own + more, base, from)
    ensures Admitted(primary, meta, fate, members, longer)
  {
    longer, fate, more := members, None, {};
    if meta.pid == primary.meta.pid {
      assert Elements(members + [primary]) == Elements(members) + {primary};
      assert own + more == own;
      longer := members + [primary];
      return;
    }
    ghost var fds, facts := m.fds, m.facts;
    var r;
    ghost var calls;
    r, calls := Pin(m, meta);
    assert HandlesOnly(facts, m.facts);
    if r.Err? {
      fate := Some(r.error);
      OpenedSinceKept(fds, facts, from, own, m.fds, m.facts);
      assert own + more == own;
      return;
    }
    var c := r.value;
    SplitMore(fds, base, {primary} + own, c, m.fds);
    HoldingNext(m, primary, members, own, base, from, c, fds, facts);
    longer, more := members + [c], {c};
  }

  // All of these are closed, once, but for those left.
  ghost predicate ClosedBut(own: set<LinuxController>, left: set<LinuxController>)
    reads own
  {
    forall c :: c in own ==> if c in left then c.closes == 0 else !c.valid && c.closes == 1
  }

  // Closes the members other than the primary, which stays with the caller.
  method CloseOthers(m: Machine, primary: LinuxController, members: seq<LinuxController>,
      ghost own: set<LinuxController>, ghost base: map<int, Instance>)
    requires m.Valid() && primary !in own && own == Elements(members) - {primary}
    requires Owned(m, base, {primary} + own)
    requires forall i, j :: 0 <= i < j < |members| && members[i] == members[j] ==> members[i] == primary
    requires forall c :: c in own ==> c.closes == 0
    modifies own, m`fds, m`facts
    ensures m.Valid() && Owned(m, base, {primary})
    ensures forall c :: c in own ==> !c.valid && c.closes == 1
    ensures HandlesOnly(old(m.facts), m.facts)
  {
    ghost var left := own;
    for i := 0 to |members|
      invariant m.Valid() && left <= own && Owned(m, base, {primary} + left)
      invariant forall j :: 0 <= j < |members| && members[j] != primary ==> (members[j] in left <==> i <= j)
      invariant ClosedBut(own, left)
      invariant HandlesOnly(old(m.facts), m.facts)
    {
      if members[i] != primary {
        ghost var rest := left - {members[i]};
        assert {primary} + left - {members[i]} == {primary} + rest;
        CloseOne(m, members[i], base, {primary} + left);
        left := rest;
      }
    }
    assert {primary} + left == {primary};
  }

  // What has been gathered so far: the members, and the pin calls made for them.
  ghost predicate Gathered(m: Machine, primary: LinuxController, metas: seq<ProcMeta>, fates: seq<Option<PinError>>,
      members: seq<LinuxController>, pids: seq<nat>, own: set<LinuxController>, base: map<int, Instance>, from: nat,
      pins: seq<Option<PinError>>)
    reads m, primary, own
  {
    && m.Valid() && from <= |m.facts| && Holding(m, primary, members, own, base, from)
    && Taken(primary, metas, fates, members, pids)
    && m.pins == pins + PinCalls(metas, primary.meta.pid, fates)
  }

  // The same after one more pin call that failed.
  ghost predicate Broken(m: Machine, primary: LinuxController, metas: seq<ProcMeta>, fates: seq<Option<PinError>>,
      members: seq<LinuxController>, pids: seq<nat>, own: set<LinuxController>, base: map<int, Instance>, from: nat,
      pins: seq<Option<PinError>>, err: PinError)
    reads m, primary, own
  {
    && m.Valid() && Holding(m, primary, members, own, base, from) && Taken(primary, metas, fates, members, pids)
    && err != ProcessGone && err != IdentityChanged
    && m.pins == pins + PinCalls(metas, primary.meta.pid, fates) + [Some(err)]
  }

  // One round of the loop below.
  method AdmitNext(m: Machine, primary: LinuxController, meta: ProcMeta, members: seq<LinuxController>, pids: seq<nat>,
      ghost metas: seq<ProcMeta>, ghost base: map<int, Instance>, ghost own: set<LinuxController>, ghost from: nat,
      ghost fates: seq<Option<PinError>>, ghost pins: seq<Option<PinError>>)
    returns (err: Option<PinError>, longer: seq<LinuxController>, more: seq<nat>, ghost made: set<LinuxController>,
        ghost fate: Option<PinError>)
    requires Gathered(m, primary, metas, fates, members, pids, own, base, from, pins)
    requires |fates| < |metas| && metas[|fates|] == meta
    modifies m`k, m`calls, m`fds, m`facts, m`pins, m`handedOut
    ensures Later(old(m.k), m.k) && HandlesOnly(old(m.facts), m.facts)
    ensures fresh(made) && m.handedOut == old(m.handedOut) + made
    ensures match err
      case None => Gathered(m, primary, metas, fates + [fate], longer, more, own + made, base, from, pins)
      case Some(e) => Broken(m, primary, metas, fates, longer, more, own + made, base, from, pins, e)
  {
    err, more := None, pids;
    var outcome;
    outcome, longer, made := Admit(m, primary, meta, members, base, own, from);
    fate := outcome;
    if outcome.Some? && outcome != Some(ProcessGone) && outcome != Some(IdentityChanged) {
      err := outcome;
      return;
    }
    TakenUp(primary, metas, fates, fate, members, longer, pids);
    PinsGrow(pins, metas, primary.meta.pid, fates, fate);
    if outcome == None {
      more := pids + [meta.pid];
    }
  }

  // Pins the members one by one, up to the first failure that is not a member
  // gone or replaced.
  method PinMembers(m: Machine, primary: LinuxController, metas: seq<ProcMeta>, ghost base: map<int, Instance>)
    returns (members: seq<LinuxController>, pids: seq<nat>, err: Option<PinError>, ghost fates: seq<Option<PinError>>,
        ghost own: set<LinuxController>)
    requires m.Valid() && Owned(m, base, {primary})
    modifies m`k, m`calls, m`fds, m`facts, m`pins, m`handedOut
    ensures Later(old(m.k), m.k)
    ensures HandlesOnly(old(m.facts), m.facts)
    ensures fresh(own) && m.handedOut == old(m.handedOut) + own
    ensures match err
      case None =>
        |fates| == |metas| && Gathered(m, primary, metas, fates, members, pids, own, base, |old(m.facts)|, old(m.pins))
      case Some(e) => Broken(m, primary, metas, fates, members, pids, own, base, |old(m.facts)|, old(m.pins), e)
  {
    members, pids, err, fates, own := [], [], None, [], {};
    assert {primary} + own == {primary};
    for i := 0 to |metas|
      invariant Later(old(m.k), m.k) && err == None
      invariant HandlesOnly(old(m.facts), m.facts)
      invariant fresh(own) && m.handedOut == old(m.handedOut) + own
      invariant |fates| == i
      invariant Gathered(m, primary, metas, fates, members, pids, own, base, |old(m.facts)|, old(m.pins))
    {
      ghost var made, fate;
      err, members, pids, made, fate := AdmitNext(m, primary, metas[i], members, pids, metas, base, own, |old(m.facts)|,
        fates, old(m.pins));
      own := own + made;
      if err.Some? {
        return;
      }
      fates := fates + [fate];
    }
  }

  // A primary the metas do not name comes last.
  lemma PrimaryAppended(primary: LinuxController, metas: seq<ProcMeta>, fates: seq<Option<PinError>>,
      members: seq<LinuxController>, pids: seq<nat>)
    requires |fates| == |metas| && Taken(primary, metas, fates, members, pids) && !Names(metas, primary.meta.pid)
    ensures IsGroup(primary, metas, fates, members + [primary])
    ensures Aligned(members + [primary], pids + [primary.meta.pid])
    ensures pids + [primary.meta.pid] == GroupPids(metas, primary.meta.pid, fates)
    ensures Elements(members + [primary]) - {primary} == Elements(members) - {primary}
  {
    assert (members + [primary])[..|members|] == members;
    assert Elements(members + [primary]) == Elements(members) + {primary};
  }

  // On failure every controller pinned here is closed, once, and the primary is
  // left to the caller; on success the group owns them.
  method PinGroup(m: Machine, primary: LinuxController, metas: seq<ProcMeta>, ghost base: map<int, Instance>)
    returns (members: seq<LinuxController>, pids: seq<nat>, err: Option<PinError>, ghost fates: seq<Option<PinError>>,
        ghost own: set<LinuxController>)
    requires m.Valid() && Owned(m, base, {primary})
    modifies m`k, m`calls, m`fds, m`facts, m`pins, m`handedOut
    ensures m.Valid() && Later(old(m.k), m.k)
    ensures HandlesOnly(old(m.facts), m.facts)
    ensures fresh(own) && m.handedOut == old(m.handedOut) + own
    ensures FatesAllowed(metas, primary.meta.pid, fates) && forall i :: 0 <= i < |fates| ==> Tolerated(fates[i])
    ensures err == None ==> m.pins == old(m.pins) + PinCalls(metas, primary.meta.pid, fates)
    ensures err.Some? ==> m.pins == old(m.pins) + PinCalls(metas, primary.meta.pid, fates) + [err]
    ensures err == None ==> IsGroup(primary, metas, fates, members) && Aligned(members, pids)
    ensures err == None ==> pids == GroupPids(metas, primary.meta.pid, fates)
    ensures err == None ==> Holding(m, primary, members, own, base, |old(m.facts)|)
    ensures err.Some? ==> err != Some(ProcessGone) && err != Some(IdentityChanged)
    ensures err.Some? ==> Owned(m, base, {primary}) && forall c :: c in own ==> !c.valid && c.closes == 1
  {
    members, pids, err, fates, own := PinMembers(m, primary, metas, base);
    if err.Some? {
      CloseOthers(m, primary, members, own, base);
      return;
    }
    var hasPrimary := Names(metas, primary.meta.pid);
    if !hasPrimary {
      PrimaryAppended(primary, metas, fates, members, pids);
      members := members + [primary];
      pids := pids + [primary.meta.pid];
    }
  }

  // ---- how often a controller is listed ----

  // The group lists this PID once at most.
  predicate ListedOnce(metas: seq<ProcMeta>, pid: nat) {
    forall i, j :: 0 <= i < j < |metas| && metas[i].pid == pid ==> metas[j].pid != pid
  }

  // c pins the process this meta means.
  ghost predicate Fits(c: LinuxController, meta: ProcMeta) {
    meta.pid == c.meta.pid && (meta.startTime != 0 ==> meta.startTime == c.meta.startTime)
  }

  lemma CountOne<T>(s: seq<T>, x: T, k: nat)
    requires k < |s| && s[k] == x && forall i :: 0 <= i < |s| && s[i] == x ==> i == k
    ensures multiset(s)[x] == 1
  {
    assert s == s[..k] + [s[k]] + s[k + 1..];
    assert x !in s[..k] && x !in s[k + 1..];
  }

  function Times(metas: seq<ProcMeta>, pid: nat): nat {
    if metas == [] then 0
    else Times(metas[..|metas| - 1], pid) + if metas[|metas| - 1].pid == pid then 1 else 0
  }

  // How often a group of these metas lists its primary.
  function Listings(metas: seq<ProcMeta>, pid: nat): nat {
    if Names(metas, pid) then Times(metas, pid) else 1
  }

  lemma {:induction false} TimesPositive(metas: seq<ProcMeta>, pid: nat)
    ensures Times(metas, pid) > 0 <==> Names(metas, pid)
  {
    if metas != [] {
      var init, last := metas[..|metas| - 1], metas[|metas| - 1];
      TimesPositive(init, pid);
      assert metas == init + [last];
      if Names(init, pid) {
        var i :| 0 <= i < |init| && init[i].pid == pid;
        assert metas[i].pid == pid;
      }
    }
  }

  // The primary is listed once exactly when the metas list its PID once at most.
  lemma {:induction false} ListedOnceIff(metas: seq<ProcMeta>, pid: nat)
    ensures Times(metas, pid) <= 1 <==> ListedOnce(metas, pid)
    ensures Listings(metas, pid) == 1 <==> ListedOnce(metas, pid)
  {
    TimesPositive(metas, pid);
    if metas != [] {
      var init, last := metas[..|metas| - 1], metas[|metas| - 1];
      ListedOnceIff(init, pid);
      TimesPositive(init, pid);
      assert ListedOnce(metas, pid) <==> ListedOnce(init, pid) && !(last.pid == pid && Names(init, pid));
    }
  }

  lemma AssembledInit(primary: LinuxController, metas: seq<ProcMeta>, fates: seq<Option<PinError>>,
      members: seq<LinuxController>)
    requires fates != [] && fates[|fates| - 1] == None && Assembled(primary, metas, Kept(fates), members)
    ensures |members| > 0 && |fates| <= |metas| && StandsFor(primary, members[|members| - 1], metas[|fates| - 1])
    ensures Assembled(primary, metas, Kept(fates[..|fates| - 1]), members[..|members| - 1])
  {
    var n := |fates| - 1;
    var kept := Kept(fates[..n]);
    assert Kept(fates) == kept + [n];
    assert Kept(fates)[|kept|] == n;
    forall j | 0 <= j < |kept|
      ensures kept[j] < |metas| && StandsFor(primary, members[j], metas[kept[j]])
    {
      assert Kept(fates)[j] == kept[j];
    }
  }

  lemma {:induction false} PrimaryTimes(primary: LinuxController, metas: seq<ProcMeta>, fates: seq<Option<PinError>>,
      members: seq<LinuxController>)
    requires FatesAllowed(metas, primary.meta.pid, fates) && Assembled(primary, metas, Kept(fates), members)
    ensures multiset(members)[primary] == Times(metas[..|fates|], primary.meta.pid)
    decreases |fates|
  {
    if fates != [] {
      var n := |fates| - 1;
      assert metas[..n + 1][..n] == metas[..n];
      if fates[n] == None {
        var init, last := members[..|members| - 1], members[|members| - 1];
        AssembledInit(primary, metas, fates, members);
        PrimaryTimes(primary, metas, fates[..n], init);
        assert members == init + [last];
      } else {
        assert Kept(fates) == Kept(fates[..n]);
        PrimaryTimes(primary, metas, fates[..n], members);
      }
    }
  }

  lemma OtherCounts(c: LinuxController, group: seq<ProcMeta>, kept: seq<nat>, members: seq<LinuxController>,
      d: LinuxController)
    requires Assembled(c, group, kept, members) && d in members && d != c
    ensures multiset(members)[d] == 1
    ensures exists j :: 0 <= j < |group| && Fits(d, group[j])
  {
    var i :| 0 <= i < |members| && members[i] == d;
    assert StandsFor(c, members[i], group[kept[i]]);
    assert Fits(d, group[kept[i]]);
    CountOne(members, d, i);
  }

  lemma AssembledCounts(c: LinuxController, group: seq<ProcMeta>, fates: seq<Option<PinError>>,
      members: seq<LinuxController>)
    requires FatesAllowed(group, c.meta.pid, fates) && |fates| == |group| && Assembled(c, group, Kept(fates), members)
    ensures multiset(members)[c] == Times(group, c.meta.pid)
    ensures forall d :: d in members && d != c ==> multiset(members)[d] == 1
    ensures forall d :: d in members && d != c ==> exists j :: 0 <= j < |group| && Fits(d, group[j])
  {
    PrimaryTimes(c, group, fates, members);
    assert group[..|fates|] == group;
    forall d | d in members && d != c
      ensures multiset(members)[d] == 1 && exists j :: 0 <= j < |group| && Fits(d, group[j])
    {
      OtherCounts(c, group, Kept(fates), members, d);
    }
  }

  // Each controller of a group but the primary is listed once; the primary as
  // often as the metas list its PID, and once when they do not.
  lemma GroupCounts(c: LinuxController, group: seq<ProcMeta>, fates: seq<Option<PinError>>,
      members: seq<LinuxController>)
    requires IsGroup(c, group, fates, members)
    ensures c in members && multiset(members)[c] == Listings(group, c.meta.pid)
    ensures forall d :: d in members && d != c ==> multiset(members)[d] == 1
    ensures forall d :: d in members && d != c ==> exists j :: 0 <= j < |group| && Fits(d, group[j])
  {
    TimesPositive(group, c.meta.pid);
    if Names(group, c.meta.pid) {
      AssembledCounts(c, group, fates, members);
    } else {
      var first := members[..|members| - 1];
      AssembledCounts(c, group, fates, first);
      assert members == first + [c];
    }
  }

  // The primary is a member, and no other member has its PID.
  lemma GroupIsLed(c: LinuxController, group: seq<ProcMeta>, fates: seq<Option<PinError>>,
      members: seq<LinuxController>)
    requires IsGroup(c, group, fates, members)
    ensures c in members && forall d :: d in members ==> (d == c <==> d.meta.pid == c.meta.pid)
  {
    GroupCounts(c, group, fates, members);
    var first := if Names(group, c.meta.pid) then members else members[..|members| - 1];
    forall d | d in members
      ensures d == c <==> d.meta.pid == c.meta.pid
    {
      var i :| 0 <= i < |members| && members[i] == d;
      if i < |first| {
        assert first[i] == d && StandsFor(c, first[i], group[Kept(fates)[i]]);
      }
    }
  }

  // A group that names the process of its primary twice lists it twice.
  lemma TwiceListed(c: LinuxController)
    ensures IsGroup(c, [c.meta, c.meta], [None, None], [c, c]) && multiset([c, c])[c] == 2
  {
    assert [c.meta, c.meta][0].pid == c.meta.pid;
    var one: Option<PinError> := None;
    assert [one, one][..1] == [one] && [one][..0] == [];
    assert Kept([one]) == [0];
    assert Kept([one, one]) == [0, 1];
  }
}
