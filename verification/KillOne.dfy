// killOne: one teardown from the pin of the target to the closing of every
// handle.
module KillOne {
  import opened Model
  import opened Kernel
  import opened Machine
  import opened Pinning
  import opened Grouping
  import opened Watching
  import opened Vetting
  import opened Conduct
  import opened Teardown
  import Escalation
  import opened Endpoint
  import Outcomes

  // The result of a teardown whose pin failed. A process that is gone has let go.
  function PinFailure(pid: nat, e: PinError): Escalation.Teardown {
    match e
    case ProcessGone => Escalation.Teardown(Escalation.Released, pid, Escalation.NoCause, false, false)
    case IdentityChanged => Escalation.Teardown(Escalation.Changed, pid, Escalation.FromController(e), false, false)
    case PermissionDenied => Escalation.Teardown(Escalation.Denied, pid, Escalation.FromController(e), false, false)
    case _ => Escalation.Teardown(Escalation.Failed, pid, Escalation.FromController(e), false, false)
  }

  // The metas a teardown may signal.
  function Metas(target: ProcMeta, group: seq<ProcMeta>): seq<ProcMeta> {
    if |group| > 1 then [target] + group else [target]
  }

  // The processes a teardown asks, given how the pin calls for its group ended.
  function CrewFor(lead: nat, group: seq<ProcMeta>, fates: seq<Option<PinError>>): Crew
    requires |fates| <= |group|
  {
    if |group| <= 1 then Crew(lead, [lead], false) else Crew(lead, GroupPids(group, lead, fates), true)
  }

  // The places of the members that were pinned, in order.
  predicate PinnedPlaces(fates: seq<Option<PinError>>, at: seq<nat>) {
    && (forall j :: 0 <= j < |at| ==> at[j] < |fates| && fates[at[j]] == None)
    && (forall i, j :: 0 <= i < j < |at| ==> at[i] < at[j])
    && (forall i :: 0 <= i < |fates| && fates[i] == None ==> i in at)
  }

  ghost predicate PidsListed(lead: nat, group: seq<ProcMeta>, fates: seq<Option<PinError>>, pids: seq<nat>)
    requires |fates| == |group|
  {
    exists at: seq<nat> ::
      && PinnedPlaces(fates, at) && |at| <= |pids| && (forall j :: 0 <= j < |at| ==> pids[j] == group[at[j]].pid)
      && pids[|at|..] == if exists m :: m in group && m.pid == lead then [] else [lead]
  }

  // A teardown without a group asks the target. With one it asks the members that
  // were pinned, in the order of the group, and last the target when the group does
  // not name it.
  lemma CrewLists(lead: nat, group: seq<ProcMeta>, fates: seq<Option<PinError>>)
    requires |fates| <= |group| && (|group| > 1 ==> |fates| == |group|)
    ensures CrewFor(lead, group, fates).lead == lead
    ensures |group| <= 1 ==> CrewFor(lead, group, fates).pids == [lead] && !CrewFor(lead, group, fates).grouped
    ensures |group| > 1 ==>
      CrewFor(lead, group, fates).grouped && PidsListed(lead, group, fates, CrewFor(lead, group, fates).pids)
  {
    if |group| > 1 {
      KeptAscends(fates);
      KeptPidsAt(group, fates);
      var at := Kept(fates);
      var pids := CrewFor(lead, group, fates).pids;
      assert PinnedPlaces(fates, at) && forall j :: 0 <= j < |at| ==> pids[j] == group[at[j]].pid;
    }
  }

  // How often a teardown closes the controller of its target.
  function TargetCloses(group: seq<ProcMeta>, pid: nat): nat {
    if |group| <= 1 then 1 else Listings(group, pid)
  }

  // The last pin call made since then failed with e.
  ghost predicate PinFailed(before: seq<Option<PinError>>, pins: seq<Option<PinError>>, e: PinError) {
    before <= pins && |before| < |pins| && pins[|pins| - 1] == Some(e)
  }

  // So did the pin of the target; or that of a member, which was neither gone nor
  // replaced, after the target was pinned.
  ghost predicate AnyPinFailed(before: seq<Option<PinError>>, pins: seq<Option<PinError>>, e: PinError) {
    && PinFailed(before, pins, e)
    && (|pins| > |before| + 1 ==> pins[|before|] == None && e != ProcessGone && e != IdentityChanged)
  }

  // The pin calls made for the rest of the group.
  function RestPins(lead: nat, group: seq<ProcMeta>, fates: seq<Option<PinError>>): seq<Option<PinError>>
    requires |fates| <= |group|
  {
    if |group| <= 1 then [] else PinCalls(group, lead, fates)
  }

  // How the members fared: gone and replaced ones were skipped.
  ghost predicate Fated(lead: nat, group: seq<ProcMeta>, fates: seq<Option<PinError>>) {
    |fates| <= |group| && (|group| > 1 ==> |fates| == |group| && FatesAllowed(group, lead, fates))
  }

  // The controllers behind ctl are the target's and these, and this is how often
  // each is listed.
  ghost predicate Lists(ctl: Controller, own: set<LinuxController>, group: seq<ProcMeta>, target: ProcMeta) {
    && (forall d :: d in own ==> multiset(Parts(ctl))[d] == 1)
    && multiset(Parts(ctl))[Lead(ctl)] == TargetCloses(group, target.pid)
  }

  // Every member means one of these metas.
  ghost predicate Meant(own: set<LinuxController>, group: seq<ProcMeta>) {
    forall d :: d in own ==> |group| > 1 && exists j :: 0 <= j < |group| && Fits(d, group[j])
  }

  lemma GroupCrew(c: LinuxController, target: ProcMeta, group: seq<ProcMeta>, fates: seq<Option<PinError>>,
      members: seq<LinuxController>, pids: seq<nat>, own: set<LinuxController>)
    requires |group| > 1 && c.meta.pid == target.pid && own == Elements(members) - {c}
    requires IsGroup(c, group, fates, members) && Aligned(members, pids) && pids == GroupPids(group, target.pid, fates)
    ensures Led(Group(c, members)) && CrewOf(Group(c, members)) == CrewFor(target.pid, group, fates)
    ensures Lists(Group(c, members), own, group, target) && Meant(own, group)
  {
    GroupCounts(c, group, fates, members);
    GroupIsLed(c, group, fates, members);
    assert pids == PidsOf(members);
  }

  // Pins the rest of the group, unless there is none.
  method PinRest(m: Machine, c: LinuxController, target: ProcMeta, group: seq<ProcMeta>, ghost base: map<int, Instance>)
    returns (ctl: Controller, pids: seq<nat>, err: Option<PinError>, ghost own: set<LinuxController>,
        ghost fates: seq<Option<PinError>>)
    requires m.Valid() && Owned(m, base, {c}) && c.meta.pid == target.pid
    modifies m`k, m`calls, m`fds, m`facts, m`pins, m`handedOut
    ensures m.Valid() && Later(old(m.k), m.k) && HandlesOnly(old(m.facts), m.facts)
    ensures fresh(own) && m.handedOut == old(m.handedOut) + own
    ensures err.Some? ==> Owned(m, base, {c}) && (forall d :: d in own ==> !d.valid && d.closes == 1)
    ensures err.Some? ==> PinFailed(old(m.pins), m.pins, err.value)
    ensures err.Some? ==> err != Some(ProcessGone) && err != Some(IdentityChanged)
    ensures err == None ==>
      Fated(target.pid, group, fates) && m.pins == old(m.pins) + RestPins(target.pid, group, fates)
    ensures err == None ==>
      Lead(ctl) == c && Led(ctl) && CrewOf(ctl) == CrewFor(target.pid, group, fates) && pids == CrewOf(ctl).pids
    ensures err == None ==>
      Holding(m, c, Parts(ctl), own, base, |old(m.facts)|) && Lists(ctl, own, group, target) && Meant(own, group)
  {
    own, err, fates := {}, None, [];
    ctl, pids := Single(c), [target.pid];
    assert {c} + own == {c};
    assert PidsOf([c]) == [target.pid];
    if |group| > 1 {
      var members;
      members, pids, err, fates, own := PinGroup(m, c, group, base);
      if err == None {
        ctl := Group(c, members);
        GroupCrew(c, target, group, fates, members, pids, own);
      }
    }
  }

  // The state in which the escalation starts.
  ghost predicate Armed(m: Machine, ctl: Controller, own: set<LinuxController>, base: map<int, Instance>, from: nat,
      target: ProcMeta, group: seq<ProcMeta>)
    reads m, Lead(ctl), own
  {
    && m.Valid() && Holding(m, Lead(ctl), Parts(ctl), own, base, from) && Led(ctl)
    && (m.hasPidfd ==> Lead(ctl).fd >= 0 && OpenedSince(m.fds, m.facts, from, {Lead(ctl)}))
    && Fits(Lead(ctl), target) && Meant(own, group)
    && from <= |m.facts| && forall n :: from <= n < |m.facts| ==> !m.facts[n].Delivered?
  }

  // The watch and the job of the escalation.
  ghost function WatchOver(m: Machine, ctl: Controller, endpoint: AddrPort): Watch
    reads m
  {
    Watch(m.facts, m.k.used, endpoint, CrewOf(ctl).pids, Parts(ctl), m.fds)
  }

  ghost function JobOf(m: Machine, ctl: Controller, endpoint: AddrPort, o: Escalation.Options): Job
    reads m
  {
    Job(ctl, endpoint, o, m.hasPidfd, m.requests)
  }

  lemma ArmedServes(m: Machine, ctl: Controller, own: set<LinuxController>, base: map<int, Instance>, from: nat,
      target: ProcMeta, group: seq<ProcMeta>, endpoint: AddrPort, o: Escalation.Options)
    requires Armed(m, ctl, own, base, from, target, group)
    ensures Underway(m, WatchOver(m, ctl, endpoint)) && Serves(JobOf(m, ctl, endpoint, o), WatchOver(m, ctl, endpoint))
  {
    forall d | d in Parts(ctl)
      ensures d.valid && d.Named(m.fds) && (m.hasPidfd ==> d.fd >= 0)
    {
      assert d in {Lead(ctl)} + own;
    }
  }

  // Whom this teardown may signal.
  ghost function MandateOf(endpoint: AddrPort, pids: seq<nat>, target: ProcMeta, group: seq<ProcMeta>, all: set<object>,
      pidfd: bool): Mandate {
    Mandate(endpoint, pids, Metas(target, group), all, pidfd)
  }

  lemma PartsAreMeant(ctl: Controller, own: set<LinuxController>, target: ProcMeta, group: seq<ProcMeta>,
      d: LinuxController)
    requires Fits(Lead(ctl), target) && Meant(own, group) && d in {Lead(ctl)} + own
    ensures FitsOne(d, Metas(target, group))
  {
    var metas := Metas(target, group);
    if d == Lead(ctl) {
      assert Fits(d, metas[0]);
    } else {
      var j :| 0 <= j < |group| && Fits(d, group[j]);
      assert Fits(d, metas[j + 1]);
    }
  }

  lemma ArmedEstablishes(m: Machine, ctl: Controller, own: set<LinuxController>, base: map<int, Instance>, from: nat,
      target: ProcMeta, group: seq<ProcMeta>, endpoint: AddrPort)
    requires Armed(m, ctl, own, base, from, target, group)
    ensures Founded(WatchOver(m, ctl, endpoint), from,
      MandateOf(endpoint, CrewOf(ctl).pids, target, group, {Lead(ctl)} + own, m.hasPidfd))
  {
    forall d | d in Parts(ctl)
      ensures d in {Lead(ctl)} + own && FitsOne(d, Metas(target, group))
      ensures m.hasPidfd ==> d.fd >= 0 && d.fd in m.fds && m.fds[d.fd] in m.k.used
    {
      PartsAreMeant(ctl, own, target, group, d);
    }
  }

  // The escalation, and whom it signalled.
  method RunVetted(m: Machine, ctl: Controller, endpoint: AddrPort, pids: seq<nat>, o: Escalation.Options,
      ghost own: set<LinuxController>, ghost base: map<int, Instance>, ghost from: nat, ghost target: ProcMeta,
      ghost group: seq<ProcMeta>)
    returns (res: Escalation.Teardown)
    requires Armed(m, ctl, own, base, from, target, group) && pids == CrewOf(ctl).pids
    modifies m`k, m`calls, m`facts, m`requests
    ensures m.Valid() && old(m.facts) <= m.facts && old(m.requests) <= m.requests
    ensures Ran(CrewOf(ctl), endpoint, o, m.hasPidfd, res, m.requests[|old(m.requests)|..])
    ensures RecipientsVetted(m.facts, from, MandateOf(endpoint, pids, target, group, {Lead(ctl)} + own, m.hasPidfd))
  {
    ghost var w, j := WatchOver(m, ctl, endpoint), JobOf(m, ctl, endpoint, o);
    ghost var md := MandateOf(endpoint, pids, target, group, {Lead(ctl)} + own, m.hasPidfd);
    ArmedServes(m, ctl, own, base, from, target, group, endpoint, o);
    ArmedEstablishes(m, ctl, own, base, from, target, group, endpoint);
    res := Run(m, ctl, endpoint, pids, o, w, j);
    RecipientsAreVetted(m.facts, m.k, w, from, md);
  }

  lemma ArmedOwns(m: Machine, ctl: Controller, own: set<LinuxController>, base: map<int, Instance>, from: nat,
      target: ProcMeta, group: seq<ProcMeta>)
    requires Armed(m, ctl, own, base, from, target, group)
    ensures Owned(m, base, {Lead(ctl)} + own) && Elements(Parts(ctl)) == {Lead(ctl)} + own
  {
    assert Lead(ctl) in Elements(Parts(ctl));
  }

  method CloseAll(m: Machine, ctl: Controller, ghost all: set<LinuxController>, ghost base: map<int, Instance>)
    requires m.Valid() && Owned(m, base, all) && Elements(Parts(ctl)) == all
    modifies all, m`fds, m`facts
    ensures m.Valid() && m.fds == base && HandlesOnly(old(m.facts), m.facts)
    ensures forall c :: c in all ==> !c.valid && c.closes == old(c.closes) + multiset(Parts(ctl))[c]
  {
    assert forall c :: c in Parts(ctl) ==> c in Elements(Parts(ctl));
    CloseEach(m, Parts(ctl), base, all);
    assert all - Elements(Parts(ctl)) == {};
    OwnedNothing(m, base);
  }

  // The escalation and the closing of the handles it was given.
  method RunAndClose(m: Machine, ctl: Controller, endpoint: AddrPort, pids: seq<nat>, o: Escalation.Options,
      ghost all: set<LinuxController>, ghost own: set<LinuxController>, ghost base: map<int, Instance>, ghost from: nat,
      ghost target: ProcMeta, ghost group: seq<ProcMeta>)
    returns (res: Escalation.Teardown)
    requires Armed(m, ctl, own, base, from, target, group) && pids == CrewOf(ctl).pids
    requires all == {Lead(ctl)} + own
    modifies m`k, m`calls, m`fds, m`facts, m`requests, all
    ensures m.Valid() && m.fds == base && old(m.facts) <= m.facts && old(m.requests) <= m.requests
    ensures Ran(CrewOf(ctl), endpoint, o, m.hasPidfd, res, m.requests[|old(m.requests)|..])
    ensures RecipientsVetted(m.facts, from, MandateOf(endpoint, pids, target, group, all, m.hasPidfd))
    ensures forall c :: c in all ==> !c.valid && c.closes == old(c.closes) + multiset(Parts(ctl))[c]
  {
    ArmedOwns(m, ctl, own, base, from, target, group);
    res := RunVetted(m, ctl, endpoint, pids, o, own, base, from, target, group);
    ghost var facts := m.facts;
    CloseAll(m, ctl, all, base);
    VettingStays(facts, m.facts, from, MandateOf(endpoint, pids, target, group, all, m.hasPidfd));
  }

  // What the pin of the target has established still holds after the rest of the
  // group is pinned: the pidfd names the same instance.
  lemma TargetStaysOpen(m: Machine, c: LinuxController, fds: map<int, Instance>, facts: seq<Fact>, from: nat)
    requires m.Valid() && from < |facts| && facts <= m.facts && c.fd >= 0
    requires c.Named(fds) && fds[c.fd] in m.k.used && Opens(facts[from], c.fd, fds[c.fd])
    requires c.Named(m.fds)
    ensures OpenedSince(m.fds, m.facts, from, {c})
  {
    assert m.fds[c.fd] == fds[c.fd];
    assert m.facts[from] == facts[from];
  }

  lemma OpenedSinceEarlier(fds: map<int, Instance>, facts: seq<Fact>, from: nat, earlier: nat, cs: set<LinuxController>)
    requires OpenedSince(fds, facts, from, cs) && earlier <= from
    ensures OpenedSince(fds, facts, earlier, cs)
  {
    forall c | c in cs && c.fd >= 0
      ensures exists n :: earlier <= n < |facts| && Opens(facts[n], c.fd, fds[c.fd])
    {
      var n :| from <= n < |facts| && Opens(facts[n], c.fd, fds[c.fd]);
    }
  }

  // The pins of the target and of its group arm the escalation.
  lemma Arm(m: Machine, ctl: Controller, own: set<LinuxController>, base: map<int, Instance>, target: ProcMeta,
      group: seq<ProcMeta>, fds: map<int, Instance>, before: seq<Fact>, facts: seq<Fact>)
    requires m.Valid() && Holding(m, Lead(ctl), Parts(ctl), own, base, |facts|) && Led(ctl)
    requires HandlesOnly(before, facts) && HandlesOnly(facts, m.facts) && Fits(Lead(ctl), target) && Meant(own, group)
    requires m.hasPidfd ==> Lead(ctl).fd >= 0
    requires Lead(ctl).fd >= 0 ==> Lead(ctl).Named(fds) && fds[Lead(ctl).fd] in m.k.used
    requires Lead(ctl).fd >= 0 ==> OpenedOne(before, facts, Lead(ctl).fd, fds[Lead(ctl).fd])
    ensures Armed(m, ctl, own, base, |before|, target, group)
  {
    assert Lead(ctl) in {Lead(ctl)} + own;
    if Lead(ctl).fd >= 0 {
      TargetStaysOpen(m, Lead(ctl), fds, facts, |before|);
    }
    OpenedSinceEarlier(m.fds, m.facts, |facts|, |before|, own);
  }

  method GiveUp(m: Machine, c: LinuxController, ghost base: map<int, Instance>)
    requires m.Valid() && Owned(m, base, {c})
    modifies c`valid, c`closes, m`fds, m`facts
    ensures m.Valid() && m.fds == base && !c.valid && c.closes == old(c.closes) + 1
    ensures HandlesOnly(old(m.facts), m.facts)
  {
    CloseOne(m, c, base, {c});
    assert {c} - {c} == {};
    OwnedNothing(m, base);
  }

  // The target is pinned; these are its controller and the descriptors it needs.
  method PinTarget(m: Machine, target: ProcMeta) returns (r: Result<LinuxController, PinError>)
    requires m.Valid()
    modifies m`k, m`calls, m`fds, m`facts, m`pins, m`handedOut
    ensures m.Valid() && HandlesOnly(old(m.facts), m.facts)
    ensures r.Err? ==> m.fds == old(m.fds) && m.handedOut == old(m.handedOut) && m.pins == old(m.pins) + [Some(r.error)]
    ensures r.Ok? ==> fresh(r.value) && m.handedOut == old(m.handedOut) + {r.value} && m.pins == old(m.pins) + [None]
    ensures r.Ok? ==> r.value.closes == 0 && Fits(r.value, target) && Owned(m, old(m.fds), {r.value})
    ensures r.Ok? ==>
      if r.value.fd >= 0 then OpenedOne(old(m.facts), m.facts, r.value.fd, m.fds[r.value.fd]) else !m.hasPidfd
  {
    ghost var calls;
    r, calls := Pin(m, target);
    if r.Ok? {
      SplitMore(old(m.fds), old(m.fds), {}, r.value, m.fds);
      assert {} + {r.value} == {r.value};
    }
  }

  // What the pins have established when all of them went well.
  ghost predicate AllPinned(m: Machine, ctl: Controller, own: set<LinuxController>, base: map<int, Instance>, from: nat,
      target: ProcMeta, group: seq<ProcMeta>, pids: seq<nat>, fates: seq<Option<PinError>>)
    reads m, Lead(ctl), own
  {
    && Armed(m, ctl, own, base, from, target, group) && Lead(ctl).closes == 0 && Lists(ctl, own, group, target)
    && Fated(target.pid, group, fates) && CrewOf(ctl) == CrewFor(target.pid, group, fates) && pids == CrewOf(ctl).pids
  }

  // Pins the group of a target that is pinned, or gives the target up.
  method PinGroupOf(m: Machine, c: LinuxController, target: ProcMeta, group: seq<ProcMeta>,
      ghost base: map<int, Instance>, ghost before: seq<Fact>)
    returns (r: Result<Controller, PinError>, pids: seq<nat>, ghost own: set<LinuxController>,
        ghost fates: seq<Option<PinError>>)
    requires m.Valid() && Owned(m, base, {c}) && c.closes == 0 && Fits(c, target) && HandlesOnly(before, m.facts)
    requires if c.fd >= 0 then OpenedOne(before, m.facts, c.fd, m.fds[c.fd]) else !m.hasPidfd
    modifies m`k, m`calls, m`fds, m`facts, m`pins, m`handedOut, c`valid, c`closes
    ensures m.Valid() && HandlesOnly(old(m.facts), m.facts)
    ensures fresh(own) && m.handedOut == old(m.handedOut) + own
    ensures r.Err? ==> m.fds == base && forall d :: d in {c} + own ==> !d.valid && d.closes == 1
    ensures r.Err? ==> PinFailed(old(m.pins), m.pins, r.error)
    ensures r.Err? ==> r.error != ProcessGone && r.error != IdentityChanged
    ensures r.Ok? ==> Lead(r.value) == c && AllPinned(m, r.value, own, base, |before|, target, group, pids, fates)
    ensures r.Ok? ==> m.pins == old(m.pins) + RestPins(target.pid, group, fates)
  {
    ghost var fds, facts := m.fds, m.facts;
    var ctl, err;
    ctl, pids, err, own, fates := PinRest(m, c, target, group, base);
    if err.Some? {
      GiveUp(m, c, base);
      r := Err(err.value);
      return;
    }
    Arm(m, ctl, own, base, target, group, fds, before, facts);
    r := Ok(ctl);
  }

  // Pins the target and then its group. A failure leaves nothing open.
  method PinAll(m: Machine, target: ProcMeta, group: seq<ProcMeta>)
    returns (r: Result<Controller, PinError>, pids: seq<nat>, ghost made: set<LinuxController>,
        ghost own: set<LinuxController>, ghost fates: seq<Option<PinError>>)
    requires m.Valid()
    modifies m`k, m`calls, m`fds, m`facts, m`pins, m`handedOut
    ensures m.Valid() && HandlesOnly(old(m.facts), m.facts)
    ensures fresh(made) && m.handedOut == old(m.handedOut) + made
    ensures r.Err? ==> m.fds == old(m.fds) && forall c :: c in made ==> !c.valid && c.closes == 1
    ensures r.Err? ==> AnyPinFailed(old(m.pins), m.pins, r.error)
    ensures r.Ok? ==> made == {Lead(r.value)} + own
    ensures r.Ok? ==> AllPinned(m, r.value, own, old(m.fds), |old(m.facts)|, target, group, pids, fates)
    ensures r.Ok? ==> m.pins == old(m.pins) + [None] + RestPins(target.pid, group, fates)
  {
    made, own, pids, fates := {}, {}, [], [];
    var pinned := PinTarget(m, target);
    if pinned.Err? {
      r := Err(pinned.error);
      return;
    }
    r, pids, own, fates := PinGroupOf(m, pinned.value, target, group, old(m.fds), old(m.facts));
    made := {pinned.value} + own;
  }

  // The controllers handed out since then are closed, ...
  ghost predicate AllClosed(before: set<object>, now: set<object>)
    reads now
  {
    forall c: LinuxController :: c in now && c !in before ==> !c.valid
  }

  // ... each of them once.
  ghost predicate AllClosedOnce(before: set<object>, now: set<object>)
    reads now
  {
    forall c: LinuxController :: c in now && c !in before ==> c.closes == 1
  }

  // Every fact since the teardown began is dated after its beginning.
  ghost predicate BeganAt(before: seq<Fact>, facts: seq<Fact>, k: KernelState) {
    |before| < |facts| && before <= facts && facts[|before|] == Began(k)
  }

  // The result reports the error of a pin. A process that is gone has let go.
  predicate Reports(res: Escalation.Teardown, pid: nat, e: PinError) {
    && res.pid == pid && !res.gracefulSent && !res.usedHardKill
    && (res.outcome == Escalation.Released <==> e == ProcessGone)
    && (res.outcome == Escalation.Changed <==> e == IdentityChanged)
    && (res.outcome == Escalation.Denied <==> e == PermissionDenied)
    && (res.outcome == Escalation.Failed <==> e == NoConsole || e.OtherError?)
    && res.cause == if e == ProcessGone then Escalation.NoCause else Escalation.FromController(e)
  }

  // Without a crew a pin call has failed, its error is reported, and nothing else
  // was done.
  ghost predicate GaveUp(pid: nat, res: Escalation.Teardown, pins: seq<Option<PinError>>, pins': seq<Option<PinError>>,
      requests: seq<Request>, requests': seq<Request>) {
    requests' == requests && exists e :: AnyPinFailed(pins, pins', e) && Reports(res, pid, e)
  }

  // With one, it is that of the members the pin calls left, and the requests made
  // are those of a run with this result.
  ghost predicate TornDown(crew: Crew, fates: seq<Option<PinError>>, pid: nat, endpoint: AddrPort, group: seq<ProcMeta>,
      o: Escalation.Options, pidfd: bool, res: Escalation.Teardown, pins: seq<Option<PinError>>,
      pins': seq<Option<PinError>>, requests: seq<Request>, requests': seq<Request>) {
    && Fated(pid, group, fates) && crew == CrewFor(pid, group, fates)
    && pins' == pins + [None] + RestPins(pid, group, fates)
    && (forall i :: |pins| < i < |pins'| ==> Tolerated(pins'[i]))
    && crew.Valid() && requests <= requests' && Ran(crew, endpoint, o, pidfd, res, requests'[|requests|..])
  }

  lemma ClosedOnceIff(own: set<LinuxController>, lead: LinuxController, group: seq<ProcMeta>, pid: nat)
    requires (forall c :: c in own ==> c.closes == 1) && lead.closes == TargetCloses(group, pid)
    ensures (forall c :: c in {lead} + own ==> c.closes == 1) <==> |group| <= 1 || ListedOnce(group, pid)
  {
    ListedOnceIff(group, pid);
    assert lead in {lead} + own;
  }

  function PidsOr(crew: Option<Crew>): seq<nat> {
    if crew.Some? then crew.value.pids else []
  }

  // How a teardown ended: no crew, or a run.
  ghost predicate Ended(crew: Option<Crew>, fates: seq<Option<PinError>>, pid: nat, endpoint: AddrPort,
      group: seq<ProcMeta>, o: Escalation.Options, pidfd: bool, res: Escalation.Teardown, pins: seq<Option<PinError>>,
      pins': seq<Option<PinError>>, requests: seq<Request>, requests': seq<Request>) {
    match crew
    case None => GaveUp(pid, res, pins, pins', requests, requests')
    case Some(c) => TornDown(c, fates, pid, endpoint, group, o, pidfd, res, pins, pins', requests, requests')
  }

  lemma PinFailureEnds(fates: seq<Option<PinError>>, pid: nat, endpoint: AddrPort, group: seq<ProcMeta>,
      o: Escalation.Options, pidfd: bool, pins: seq<Option<PinError>>, pins': seq<Option<PinError>>,
      requests: seq<Request>, e: PinError)
    requires AnyPinFailed(pins, pins', e)
    ensures Ended(None, fates, pid, endpoint, group, o, pidfd, PinFailure(pid, e), pins, pins', requests, requests)
  {
    assert Reports(PinFailure(pid, e), pid, e);
  }

  lemma RestIsTolerated(lead: nat, group: seq<ProcMeta>, fates: seq<Option<PinError>>, pins: seq<Option<PinError>>)
    requires Fated(lead, group, fates)
    ensures forall i :: |pins| < i < |pins + [None] + RestPins(lead, group, fates)| ==>
      Tolerated((pins + [None] + RestPins(lead, group, fates))[i])
  {
    var rest := RestPins(lead, group, fates);
    if |group| > 1 {
      PinCallsAreTolerated(group, lead, fates);
    }
    forall i | |pins| < i < |pins + [None] + rest|
      ensures Tolerated((pins + [None] + rest)[i])
    {
      assert (pins + [None] + rest)[i] == rest[i - |pins| - 1];
    }
  }

  lemma RunEnds(crew: Crew, fates: seq<Option<PinError>>, pid: nat, endpoint: AddrPort, group: seq<ProcMeta>,
      o: Escalation.Options, pidfd: bool, res: Escalation.Teardown, pins: seq<Option<PinError>>,
      pins': seq<Option<PinError>>, requests: seq<Request>, requests': seq<Request>)
    requires Fated(pid, group, fates) && crew == CrewFor(pid, group, fates) && crew.Valid()
    requires pins' == pins + [None] + RestPins(pid, group, fates)
    requires requests <= requests' && Ran(crew, endpoint, o, pidfd, res, requests'[|requests|..])
    ensures Ended(Some(crew), fates, pid, endpoint, group, o, pidfd, res, pins, pins', requests, requests')
  {
    RestIsTolerated(pid, group, fates, pins);
  }

  // The target is pinned, then the rest of its group; the escalation runs; and
  // every handle is closed on every path.
  method PinAndRun(m: Machine, target: ProcMeta, endpoint: AddrPort, group: seq<ProcMeta>, o: Escalation.Options)
    returns (res: Escalation.Teardown, pids: Option<seq<nat>>, ghost crew: Option<Crew>,
        ghost fates: seq<Option<PinError>>)
    requires m.Valid()
    modifies m
    ensures m.Valid() && m.fds == old(m.fds) && old(m.facts) <= m.facts && old(m.requests) <= m.requests
    ensures AllClosed(old(m.handedOut), m.handedOut)
    ensures AllClosedOnce(old(m.handedOut), m.handedOut)
      <==> crew == None || |group| <= 1 || ListedOnce(group, target.pid)
    ensures Ended(crew, fates, target.pid, endpoint, group, o, m.hasPidfd, res, old(m.pins), m.pins,
      old(m.requests), m.requests)
    ensures pids == if crew.Some? && |group| > 1 then Some(crew.value.pids) else None
    ensures RecipientsVetted(m.facts, |old(m.facts)|,
      MandateOf(endpoint, PidsOr(crew), target, group, m.handedOut - old(m.handedOut), m.hasPidfd))
  {
    pids, crew := None, None;
    var r, looking;
    ghost var made, own;
    r, looking, made, own, fates := PinAll(m, target, group);
    if r.Err? {
      res := PinFailure(target.pid, r.error);
      PinFailureEnds(fates, target.pid, endpoint, group, o, m.hasPidfd, old(m.pins), m.pins, m.requests, r.error);
      NothingSentYet(old(m.facts), m.facts,
        MandateOf(endpoint, [], target, group, m.handedOut - old(m.handedOut), m.hasPidfd));
      return;
    }
    assert m.handedOut - old(m.handedOut) == made;
    res := RunAndClose(m, r.value, endpoint, looking, o, made, own, old(m.fds), |old(m.facts)|, target, group);
    crew := Some(CrewOf(r.value));
    RunEnds(crew.value, fates, target.pid, endpoint, group, o, m.hasPidfd, res, old(m.pins), m.pins, old(m.requests),
      m.requests);
    ClosedOnceIff(own, Lead(r.value), group, target.pid);
    if |group| > 1 {
      pids := Some(looking);
    }
  }

  // The last request found the process of this PID a zombie, which held the
  // endpoint no more.
  ghost predicate ZombieFound(requests: seq<Request>, endpoint: AddrPort, pid: nat) {
    && |requests| > 0 && requests[|requests| - 1].Report?
    && LetGo(requests[|requests| - 1].at, endpoint, [pid])
  }

  // What was done since: the signals delivered are exactly those that the attempts
  // report taken. There are none when a pin failed, and none when the identity is
  // reported to have changed of processes held by pidfds or of one process that was
  // killed at once.
  ghost predicate Accounted(crew: Option<Crew>, pid: nat, endpoint: AddrPort, o: Escalation.Options, pidfd: bool,
      res: Escalation.Teardown, facts: seq<Fact>, requests: seq<Request>) {
    && Received(facts) == Sent(requests)
    && (crew == None ==> Received(facts) == [])
    && (res.outcome == Escalation.Changed && (pidfd || (o.force && |PidsOr(crew)| == 1)) ==> Received(facts) == [])
    && (res.outcome == Escalation.ZombieLeft ==> ZombieFound(requests, endpoint, pid))
  }

  // What the requests since were.
  ghost predicate RanOrNot(crew: Option<Crew>, pid: nat, endpoint: AddrPort, o: Escalation.Options, pidfd: bool,
      res: Escalation.Teardown, since: seq<Request>) {
    match crew
    case None => since == [] && res.outcome != Escalation.ZombieLeft
    case Some(c) => c.Valid() && c.lead == pid && Ran(c, endpoint, o, pidfd, res, since)
  }

  lemma EndedMeans(crew: Option<Crew>, fates: seq<Option<PinError>>, pid: nat, endpoint: AddrPort, group: seq<ProcMeta>,
      o: Escalation.Options, pidfd: bool, res: Escalation.Teardown, pins: seq<Option<PinError>>,
      pins': seq<Option<PinError>>, requests: seq<Request>, requests': seq<Request>)
    requires Ended(crew, fates, pid, endpoint, group, o, pidfd, res, pins, pins', requests, requests')
    requires requests <= requests'
    ensures RanOrNot(crew, pid, endpoint, o, pidfd, res, requests'[|requests|..])
  {
  }

  lemma Account(crew: Option<Crew>, pid: nat, endpoint: AddrPort, o: Escalation.Options, pidfd: bool,
      res: Escalation.Teardown, facts: seq<Fact>, since: seq<Request>)
    requires RanOrNot(crew, pid, endpoint, o, pidfd, res, since) && Received(facts) == Sent(since) && Truthful(since)
    ensures Accounted(crew, pid, endpoint, o, pidfd, res, facts, since)
  {
    if crew.Some? {
      Outcomes.ChangedMeansUntouchedIff(o, crew.value, pidfd);
      if res.outcome == Escalation.ZombieLeft {
        ZombieIsReportedLast(crew.value, endpoint, o, pidfd, res, since);
        ZombieLetsGo(crew.value, endpoint, o, pidfd, res, since, since[|since| - 1].at);
      }
    }
  }

  lemma TruthfulSince(requests: seq<Request>, requests': seq<Request>)
    requires requests <= requests' && Truthful(requests')
    ensures Truthful(requests'[|requests|..])
  {
    forall n | 0 <= n < |requests'| - |requests|
      ensures Right(requests'[|requests|..][n])
    {
      assert Right(requests'[|requests| + n]);
    }
  }

  lemma AccountSince(crew: Option<Crew>, fates: seq<Option<PinError>>, pid: nat, endpoint: AddrPort,
      group: seq<ProcMeta>, o: Escalation.Options, pidfd: bool, res: Escalation.Teardown, pins: seq<Option<PinError>>,
      pins': seq<Option<PinError>>, facts: seq<Fact>, requests: seq<Request>, facts': seq<Fact>,
      requests': seq<Request>)
    requires Ended(crew, fates, pid, endpoint, group, o, pidfd, res, pins, pins', requests, requests')
    requires facts <= facts' && requests <= requests' && Truthful(requests')
    requires Received(facts) == Sent(requests) && Received(facts') == Sent(requests')
    ensures Accounted(crew, pid, endpoint, o, pidfd, res, facts'[|facts|..], requests'[|requests|..])
  {
    TallySince(facts, requests, facts', requests');
    TruthfulSince(requests, requests');
    EndedMeans(crew, fates, pid, endpoint, group, o, pidfd, res, pins, pins', requests, requests');
    Account(crew, pid, endpoint, o, pidfd, res, facts'[|facts|..], requests'[|requests|..]);
  }

  lemma VettedSinceBegan(before: seq<Fact>, facts: seq<Fact>, k: KernelState, md: Mandate)
    requires BeganAt(before, facts, k) && RecipientsVetted(facts, |before| + 1, md)
    ensures RecipientsVetted(facts, |before|, md)
  {
    VettedEarlier(facts, |before| + 1, |before|, md);
  }

  // Teardown of one binding.
  method KillOne(m: Machine, b: Binding, group: seq<ProcMeta>, o: Escalation.Options)
    returns (res: Escalation.Teardown, pids: Option<seq<nat>>, ghost crew: Option<Crew>,
        ghost fates: seq<Option<PinError>>)
    requires m.Valid() && b.proc.Some?
    modifies m
    ensures m.Valid() && m.fds == old(m.fds) && BeganAt(old(m.facts), m.facts, old(m.k))
    ensures AllClosed(old(m.handedOut), m.handedOut)
    ensures AllClosedOnce(old(m.handedOut), m.handedOut)
      <==> crew == None || |group| <= 1 || ListedOnce(group, b.proc.value.pid)
    ensures old(m.requests) <= m.requests
    ensures Accounted(crew, b.proc.value.pid, b.endpoint, o, m.hasPidfd, res,
      m.facts[|old(m.facts)|..], m.requests[|old(m.requests)|..])
    ensures Ended(crew, fates, b.proc.value.pid, b.endpoint, group, o, m.hasPidfd, res, old(m.pins), m.pins,
      old(m.requests), m.requests)
    ensures pids == if crew.Some? && |group| > 1 then Some(crew.value.pids) else None
    ensures RecipientsVetted(m.facts, |old(m.facts)|,
      MandateOf(b.endpoint, PidsOr(crew), b.proc.value, group, m.handedOut - old(m.handedOut), m.hasPidfd))
  {
    m.Begin();
    res, pids, crew, fates := PinAndRun(m, b.proc.value, b.endpoint, group, o);
    AccountSince(crew, fates, b.proc.value.pid, b.endpoint, group, o, m.hasPidfd, res, old(m.pins), m.pins,
      old(m.facts), old(m.requests), m.facts, m.requests);
    VettedSinceBegan(old(m.facts), m.facts, old(m.k),
      MandateOf(b.endpoint, PidsOr(crew), b.proc.value, group, m.handedOut - old(m.handedOut), m.hasPidfd));
  }
}
