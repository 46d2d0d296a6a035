// The escalation driven against the kernel: the controllers, the probe, and Run.
module Teardown {
  import opened Model
  import opened Kernel
  import opened Machine
  import opened Pinning
  import opened GroupErrors
  import opened Watching
  import opened Escalation
  import opened Conduct

  datatype Controller = Single(c: LinuxController) | Group(primary: LinuxController, members: seq<LinuxController>)

  function Lead(ctl: Controller): LinuxController {
    match ctl
    case Single(c) => c
    case Group(primary, _) => primary
  }

  function Parts(ctl: Controller): seq<LinuxController> {
    match ctl
    case Single(c) => [c]
    case Group(_, members) => members
  }

  function PidsOf(cs: seq<LinuxController>): (pids: seq<nat>)
    ensures |pids| == |cs| && forall j :: 0 <= j < |cs| ==> pids[j] == cs[j].meta.pid
  {
    seq(|cs|, j requires 0 <= j < |cs| => cs[j].meta.pid)
  }

  function CrewOf(ctl: Controller): Crew {
    Crew(Lead(ctl).meta.pid, PidsOf(Parts(ctl)), ctl.Group?)
  }

  // The primary is among the members, and nobody else has its PID.
  ghost predicate Led(ctl: Controller) {
    Lead(ctl) in Parts(ctl) && forall c :: c in Parts(ctl) ==> (c == Lead(ctl) <==> c.meta.pid == Lead(ctl).meta.pid)
  }

  // The journal of this teardown is in order and its targets are held.
  ghost predicate Underway(m: Machine, w: Watch)
    reads m, w.targets
  {
    && m.Valid() && m.fds == w.fds && Watched(m.facts, m.k, w)
    && forall c :: c in w.targets ==> c.valid && c.Named(m.fds)
  }

  // ---- the requests of a run ----

  // A run and the requests there were before it. `pidfd` says that every process
  // behind the controller is held by a pidfd.
  datatype Job = Job(ctl: Controller, endpoint: AddrPort, o: Options, pidfd: bool, requests: seq<Request>)

  // The watch is that of this job.
  ghost predicate Serves(j: Job, w: Watch) {
    && w.endpoint == j.endpoint && w.pids == CrewOf(j.ctl).pids && Led(j.ctl)
    && forall c :: c in Parts(j.ctl) ==> c in w.targets && (j.pidfd ==> c.fd >= 0)
  }

  // The call was made: its requests, and nothing else, came in between.
  ghost predicate Made(j: Job, c: Call, requests: seq<Request>, requests': seq<Request>) {
    && requests <= requests' && Makes(CrewOf(j.ctl), j.endpoint, c, requests'[|requests|..])
    && Plausible(j.pidfd, requests'[|requests|..])
  }

  lemma MadeOfOne(j: Job, c: Call, requests: seq<Request>, r: Request)
    requires Makes(CrewOf(j.ctl), j.endpoint, c, [r]) && !r.Attempt?
    ensures Made(j, c, requests, requests + [r])
  {
    assert (requests + [r])[|requests|..] == [r];
  }

  // One call: the state it was made in, and where its requests begin.
  datatype Deed = Deed(before: State, call: Call, from: nat)

  // The calls of a run so far, and the state they have led to.
  datatype Trace = Trace(deeds: seq<Deed>, state: State)

  function StateAt(t: Trace, i: nat): State {
    if i < |t.deeds| then t.deeds[i].before else t.state
  }

  function StartOf(t: Trace, i: nat, end: nat): nat {
    if i < |t.deeds| then t.deeds[i].from else end
  }

  // Call i leads from its state to the next, and is made of the requests between
  // its start and the next.
  ghost predicate Carried(j: Job, requests: seq<Request>, t: Trace, i: nat)
    requires i < |t.deeds|
  {
    var d, end := t.deeds[i], StartOf(t, i + 1, |requests|);
    && d.from <= end <= |requests| && Makes(CrewOf(j.ctl), j.endpoint, d.call, requests[d.from..end])
    && Step(j.o, Lead(j.ctl).meta.pid, d.before, d.call) == Some(StateAt(t, i + 1))
  }

  // The requests since the start are those of the calls, in order.
  ghost predicate Traced(j: Job, requests: seq<Request>, t: Trace) {
    && j.requests <= requests
    && (j.pidfd ==> forall n :: |j.requests| <= n < |requests| && requests[n].Attempt? ==>
          requests[n].reply != Some(IdentityChanged))
    && StateAt(t, 0) == Starting && StartOf(t, 0, |requests|) == |j.requests|
    && forall i: nat :: i < |t.deeds| ==> Carried(j, requests, t, i)
  }

  ghost predicate Reached(m: Machine, j: Job, t: Trace)
    reads m
  {
    Traced(j, m.requests, t)
  }

  function With(t: Trace, c: Call, from: nat, next: State): Trace {
    Trace(t.deeds + [Deed(t.state, c, from)], next)
  }

  lemma TracedNext(j: Job, requests: seq<Request>, t: Trace, c: Call, requests': seq<Request>, next: State)
    requires Traced(j, requests, t) && Made(j, c, requests, requests')
    requires Step(j.o, Lead(j.ctl).meta.pid, t.state, c) == Some(next)
    ensures Traced(j, requests', With(t, c, |requests|, next))
  {
    var t' := With(t, c, |requests|, next);
    forall i: nat | i < |t'.deeds|
      ensures Carried(j, requests', t', i)
    {
      if i < |t.deeds| {
        var d, end := t.deeds[i], StartOf(t, i + 1, |requests|);
        assert Carried(j, requests, t, i) && t'.deeds[i] == d;
        assert requests'[d.from..end] == requests[d.from..end];
      } else {
        assert requests'[|requests|..|requests'|] == requests'[|requests|..];
      }
    }
    if j.pidfd {
      forall n | |j.requests| <= n < |requests'| && requests'[n].Attempt?
        ensures requests'[n].reply != Some(IdentityChanged)
      {
        assert n >= |requests| ==> requests'[n] == requests'[|requests|..][n - |requests|];
      }
    }
  }

  lemma TracedStarts(j: Job)
    ensures Traced(j, j.requests, Trace([], Starting))
  {
  }

  function CallsOf(t: Trace): (log: seq<Call>)
    ensures |log| == |t.deeds| && forall i :: 0 <= i < |log| ==> log[i] == t.deeds[i].call
  {
    seq(|t.deeds|, i requires 0 <= i < |t.deeds| => t.deeds[i].call)
  }

  lemma SlicesJoin<T>(s: seq<T>, start: nat, from: nat, end: nat)
    requires start <= from <= end <= |s|
    ensures s[start..from] + s[from..end] == s[start..end]
  {
  }

  lemma BackedUpTo(crew: Crew, endpoint: AddrPort, log: seq<Call>, requests: seq<Request>, start: nat, from: nat,
      c: Call, end: nat)
    requires start <= from <= end <= |requests|
    requires Backed(crew, endpoint, log, requests[start..from]) && Makes(crew, endpoint, c, requests[from..end])
    ensures Backed(crew, endpoint, log + [c], requests[start..end])
  {
    BackedNext(crew, endpoint, log, requests[start..from], c, requests[from..end]);
    SlicesJoin(requests, start, from, end);
  }

  lemma OneMoreDeed(j: Job, requests: seq<Request>, t: Trace, i: nat)
    requires i < |t.deeds| && Carried(j, requests, t, i) && |j.requests| <= StartOf(t, i, |requests|)
    requires After(j.o, Lead(j.ctl).meta.pid, CallsOf(t)[..i]) == Some(StateAt(t, i))
    requires Backed(CrewOf(j.ctl), j.endpoint, CallsOf(t)[..i], requests[|j.requests|..StartOf(t, i, |requests|)])
    ensures StartOf(t, i, |requests|) <= StartOf(t, i + 1, |requests|) <= |requests|
    ensures After(j.o, Lead(j.ctl).meta.pid, CallsOf(t)[..i + 1]) == Some(StateAt(t, i + 1))
    ensures Backed(CrewOf(j.ctl), j.endpoint, CallsOf(t)[..i + 1],
      requests[|j.requests|..StartOf(t, i + 1, |requests|)])
  {
    var log, c := CallsOf(t)[..i], CallsOf(t)[i];
    var from, end := StartOf(t, i, |requests|), StartOf(t, i + 1, |requests|);
    assert CallsOf(t)[..i + 1] == log + [c];
    AfterNext(j.o, Lead(j.ctl).meta.pid, log, c);
    BackedUpTo(CrewOf(j.ctl), j.endpoint, log, requests, |j.requests|, from, c, end);
  }

  // The first i calls form a log, backed by the requests up to there.
  lemma {:induction false} TraceIsBacked(j: Job, requests: seq<Request>, t: Trace, i: nat)
    requires Traced(j, requests, t) && i <= |t.deeds|
    ensures |j.requests| <= StartOf(t, i, |requests|) <= |requests|
    ensures After(j.o, Lead(j.ctl).meta.pid, CallsOf(t)[..i]) == Some(StateAt(t, i))
    ensures Backed(CrewOf(j.ctl), j.endpoint, CallsOf(t)[..i], requests[|j.requests|..StartOf(t, i, |requests|)])
  {
    if i == 0 {
      assert requests[|j.requests|..|j.requests|] == [];
    } else {
      TraceIsBacked(j, requests, t, i - 1);
      OneMoreDeed(j, requests, t, i - 1);
    }
  }

  lemma Associates<T>(a: seq<T>, b: seq<T>, c: seq<T>)
    ensures a + b + c == a + (b + c)
  {
  }

  lemma TraceRan(j: Job, requests: seq<Request>, t: Trace, res: Escalation.Teardown)
    requires Traced(j, requests, t) && t.state == Done(res)
    ensures Ran(CrewOf(j.ctl), j.endpoint, j.o, j.pidfd, res, requests[|j.requests|..])
  {
    var log, made := CallsOf(t), requests[|j.requests|..];
    assert log[..|t.deeds|] == log && requests[|j.requests|..|requests|] == made;
    TraceIsBacked(j, requests, t, |t.deeds|);
    assert Accepts(j.o, Lead(j.ctl).meta.pid, log, res) && Backed(CrewOf(j.ctl), j.endpoint, log, made);
    forall n | 0 <= n < |made| && made[n].Attempt? && j.pidfd
      ensures made[n].reply != Some(IdentityChanged)
    {
      assert made[n] == requests[|j.requests| + n];
    }
  }

  // ---- the calls ----

  lemma TargetIsAimedAt(facts: seq<Fact>, k: KernelState, c: LinuxController, w: Watch, f: Fact)
    requires Chronicle(facts, k) && Sighted(facts, w) && c in w.targets && f.Delivered? && f.who.pid == c.meta.pid
    requires c.fd >= 0 ==> c.fd in w.fds && w.fds[c.fd] == f.who
    requires f.who.start == c.meta.startTime || f.who !in k.used
    ensures Aimed(facts + [f], |facts|, w)
  {
    if f.who !in k.used {
      NotInUseBefore(facts, k, f);
    }
    assert MeantFor(facts + [f], |facts|, c, w.fds);
  }

  // Has one target signalled.
  method SignalTarget(m: Machine, c: LinuxController, sig: Signal, ghost w: Watch) returns (e: Option<PinError>)
    requires Underway(m, w) && Sighted(m.facts, w) && c in w.targets
    modifies m`k, m`calls, m`facts, m`requests
    ensures Underway(m, w) && Sighted(m.facts, w)
    ensures m.requests == old(m.requests) + [Attempt(c.meta.pid, sig, e)]
    ensures c.fd >= 0 ==> e != Some(IdentityChanged)
  {
    ghost var facts, k := m.facts, m.k;
    ghost var who, read, made;
    e, who, read, made := c.SendSignal(m, sig);
    WatchedLater(facts, k, m.k, w);
    if e == None {
      TargetIsAimedAt(facts, k, c, w, Delivered(who, sig, m.k));
      WatchedDelivery(facts, m.k, w, Delivered(who, sig, m.k));
      ghost var q :| Sighting(facts, q, w);
      assert Sighting(m.facts, q, w);
    }
  }

  // One more member has answered.
  lemma RepliesSnoc(lead: nat, asked: seq<Request>, a: Request)
    requires a.Attempt? && forall j :: 0 <= j < |asked| ==> asked[j].Attempt?
    ensures Replies(lead, asked + [a]) == Replies(lead, asked) + [MemberReply(a.pid == lead, a.reply)]
    ensures PrimaryReply(Replies(lead, asked + [a])) ==
      if a.pid == lead then a.reply else PrimaryReply(Replies(lead, asked))
    ensures OtherReply(Replies(lead, asked + [a])) ==
      var other := OtherReply(Replies(lead, asked));
      if other == None && a.pid != lead && a.reply.Some? && !Ignorable(a.reply.value) then a.reply else other
  {
    var init, longer := Replies(lead, asked), Replies(lead, asked + [a]);
    assert longer[..|longer| - 1] == init;
  }

  // The first i processes have been asked, and this is what they make of it.
  ghost predicate Answering(lead: nat, pids: seq<nat>, sig: Signal, asked: seq<Request>, i: nat,
      primaryErr: Option<PinError>, otherErr: Option<PinError>) {
    && i <= |pids| && Asks(pids[..i], sig, asked)
    && primaryErr == PrimaryReply(Replies(lead, asked)) && otherErr == OtherReply(Replies(lead, asked))
  }

  lemma AsksNext(pids: seq<nat>, sig: Signal, asked: seq<Request>, i: nat, err: Option<PinError>)
    requires i < |pids| && Asks(pids[..i], sig, asked)
    ensures Asks(pids[..i + 1], sig, asked + [Attempt(pids[i], sig, err)])
  {
    assert pids[..i + 1] == pids[..i] + [pids[i]];
  }

  lemma AnsweringNext(lead: nat, pids: seq<nat>, sig: Signal, asked: seq<Request>, i: nat, primaryErr: Option<PinError>,
      otherErr: Option<PinError>, err: Option<PinError>)
    requires i < |pids| && Answering(lead, pids, sig, asked, i, primaryErr, otherErr)
    ensures Answering(lead, pids, sig, asked + [Attempt(pids[i], sig, err)], i + 1,
      if pids[i] == lead then err else primaryErr,
      if pids[i] != lead && err.Some? && otherErr == None && !Ignorable(err.value) then err else otherErr)
  {
    AsksNext(pids, sig, asked, i, err);
    RepliesSnoc(lead, asked, Attempt(pids[i], sig, err));
  }

  // One round of the loop below.
  method AskMember(m: Machine, primary: LinuxController, c: LinuxController, sig: Signal, primaryErr: Option<PinError>,
      otherErr: Option<PinError>, ghost w: Watch, ghost pids: seq<nat>, ghost asked: seq<Request>, ghost i: nat)
    returns (primaryErr': Option<PinError>, otherErr': Option<PinError>, ghost more: seq<Request>)
    requires Underway(m, w) && Sighted(m.facts, w) && c in w.targets
    requires (c == primary <==> c.meta.pid == primary.meta.pid)
    requires i < |pids| && pids[i] == c.meta.pid
    requires Answering(primary.meta.pid, pids, sig, asked, i, primaryErr, otherErr)
    modifies m`k, m`calls, m`facts, m`requests
    ensures Underway(m, w) && Sighted(m.facts, w)
    ensures |more| == 1 && m.requests == old(m.requests) + more
    ensures Answering(primary.meta.pid, pids, sig, asked + more, i + 1, primaryErr', otherErr')
    ensures c.fd >= 0 ==> Plausible(true, more)
  {
    var err := SignalTarget(m, c, sig, w);
    more := [Attempt(c.meta.pid, sig, err)];
    AnsweringNext(primary.meta.pid, pids, sig, asked, i, primaryErr, otherErr, err);
    primaryErr', otherErr' := primaryErr, otherErr;
    if c == primary {
      primaryErr' := err;
    } else if err.Some? && otherErr == None && !Ignorable(err.value) {
      otherErr' := err;
    }
  }

  // Calls every member in order, whatever the others answer.
  method Each(m: Machine, primary: LinuxController, members: seq<LinuxController>, sig: Signal, ghost w: Watch)
    returns (e: Option<PinError>, ghost asked: seq<Request>)
    requires Underway(m, w) && Sighted(m.facts, w)
    requires forall c :: c in members ==> c in w.targets && (c == primary <==> c.meta.pid == primary.meta.pid)
    modifies m`k, m`calls, m`facts, m`requests
    ensures Underway(m, w) && Sighted(m.facts, w)
    ensures m.requests == old(m.requests) + asked
    ensures Asks(PidsOf(members), sig, asked) && e == GroupReply(Replies(primary.meta.pid, asked))
    ensures (forall c :: c in members ==> c.fd >= 0) ==> Plausible(true, asked)
  {
    var primaryErr: Option<PinError>, otherErr: Option<PinError> := None, None;
    asked := [];
    ghost var pids := PidsOf(members);
    for i := 0 to |members|
      invariant Underway(m, w) && Sighted(m.facts, w)
      invariant m.requests == old(m.requests) + asked
      invariant Answering(primary.meta.pid, pids, sig, asked, i, primaryErr, otherErr)
      invariant (forall c :: c in members ==> c.fd >= 0) ==> Plausible(true, asked)
    {
      ghost var more;
      primaryErr, otherErr, more := AskMember(m, primary, members[i], sig, primaryErr, otherErr, w, pids, asked, i);
      Associates(old(m.requests), asked, more);
      asked := asked + more;
    }
    assert pids[..|members|] == pids;
    e := if otherErr.Some? && (primaryErr == None || primaryErr == Some(ProcessGone)) then otherErr else primaryErr;
  }

  lemma MadeOfOneAsk(j: Job, c: LinuxController, sig: Signal, e: Option<PinError>, requests: seq<Request>)
    requires j.ctl == Single(c) && (j.pidfd ==> e != Some(IdentityChanged))
    ensures Made(j, CallOf(sig, e), requests, requests + [Attempt(c.meta.pid, sig, e)])
  {
    assert PidsOf([c]) == [c.meta.pid];
    assert (requests + [Attempt(c.meta.pid, sig, e)])[|requests|..] == [Attempt(c.meta.pid, sig, e)];
  }

  lemma MadeOfAsks(j: Job, sig: Signal, e: Option<PinError>, requests: seq<Request>, asked: seq<Request>)
    requires j.ctl.Group? && Led(j.ctl) && Asks(PidsOf(j.ctl.members), sig, asked) && Plausible(j.pidfd, asked)
    requires e == GroupReply(Replies(j.ctl.primary.meta.pid, asked))
    ensures Made(j, CallOf(sig, e), requests, requests + asked)
  {
    assert (requests + asked)[|requests|..] == asked;
    assert |PidsOf(j.ctl.members)| > 0;
  }

  method Send(m: Machine, ctl: Controller, sig: Signal, ghost w: Watch, ghost j: Job) returns (e: Option<PinError>)
    requires Underway(m, w) && Sighted(m.facts, w) && j.ctl == ctl && Serves(j, w)
    modifies m`k, m`calls, m`facts, m`requests
    ensures Underway(m, w) && Sighted(m.facts, w)
    ensures Made(j, CallOf(sig, e), old(m.requests), m.requests)
  {
    match ctl {
      case Single(c) =>
        e := SignalTarget(m, c, sig, w);
        MadeOfOneAsk(j, c, sig, e, old(m.requests));
      case Group(primary, members) =>
        ghost var asked;
        e, asked := Each(m, primary, members, sig, w);
        MadeOfAsks(j, sig, e, old(m.requests), asked);
    }
  }

  // The report is about whoever holds the PID, which is the pinned process as
  // long as that has not been reaped: exactly when the start times agree.
  method Examine(m: Machine, ctl: Controller, ghost w: Watch, ghost j: Job) returns (l: Result<Lifecycle, int>)
    requires Underway(m, w) && j.ctl == ctl && Serves(j, w)
    modifies m`k, m`requests
    ensures Underway(m, w) && m.facts == old(m.facts)
    ensures Made(j, Call.Lifecycle(l), old(m.requests), m.requests)
    ensures l == Ok(Zombie) ==> Lead(ctl).meta.pid in m.k.table && m.k.table[Lead(ctl).meta.pid] in m.k.zombies
    ensures l == Ok(Zombie) && Lead(ctl).fd >= 0 ==>
      (Present(m.k, m.fds[Lead(ctl).fd]) <==> m.k.table[Lead(ctl).meta.pid].start == Lead(ctl).meta.startTime)
    ensures l == Ok(Zombie) ==> NoSocketUnder(m.k, Lead(ctl).meta.pid)
  {
    ghost var k := m.k;
    l := m.ReadLifecycle(Lead(ctl).meta.pid);
    if l == Ok(Zombie) && Lead(ctl).fd >= 0 {
      SameStart(m.k, m.fds[Lead(ctl).fd]);
    }
    WatchedLater(m.facts, k, m.k, w);
    MadeOfOne(j, Call.Lifecycle(l), old(m.requests), Report(Lead(ctl).meta.pid, l, m.k));
  }

  method Pause(m: Machine, d: int, ghost w: Watch, ghost j: Job)
    requires Underway(m, w)
    modifies m`k, m`requests
    ensures Underway(m, w) && m.facts == old(m.facts)
    ensures Made(j, Sleep(d), old(m.requests), m.requests)
  {
    ghost var k := m.k;
    m.Sleep(d);
    WatchedLater(m.facts, k, m.k, w);
    MadeOfOne(j, Sleep(d), old(m.requests), Nap(d));
  }

  lemma SightedStays(facts: seq<Fact>, more: seq<Fact>, w: Watch)
    requires facts <= more
    ensures Sighted(facts, w) ==> Sighted(more, w)
  {
    if Sighted(facts, w) {
      var q :| Sighting(facts, q, w);
      assert Sighting(more, q, w);
    }
  }

  // A lookup that shows the endpoint held is a sighting.
  lemma SightedNow(facts: seq<Fact>, more: seq<Fact>, w: Watch, found: seq<Binding>)
    requires w.before <= facts <= more && Shown(found, more[|facts|..]) && Told(Ok(found), w.endpoint, w.pids) == Held
    ensures Sighted(more, w)
  {
    var i :| 0 <= i < |found| && HeldBy(found[i], w.endpoint, w.pids);
    var n: nat :| ShownAt(found[i], more[|facts|..], n);
    assert more[|facts| + n] == more[|facts|..][n];
    assert Sighting(more, |facts| + n, w);
  }

  // Whether one of the PIDs holds the endpoint.
  method Judge(found: Result<seq<Binding>, int>, endpoint: AddrPort, pids: seq<nat>) returns (r: ProbeReply)
    ensures r == Told(found, endpoint, pids)
  {
    if found.Err? {
      return ProbeFailed(found.error);
    }
    for i := 0 to |found.value|
      invariant forall j :: 0 <= j < i ==> !HeldBy(found.value[j], endpoint, pids)
    {
      if HeldBy(found.value[i], endpoint, pids) {
        return Held;
      }
    }
    return Free;
  }

  method ProbePort(m: Machine, endpoint: AddrPort, pids: seq<nat>, ghost w: Watch, ghost j: Job) returns (r: ProbeReply)
    requires Underway(m, w) && Serves(j, w) && endpoint == w.endpoint && pids == w.pids
    modifies m`k, m`facts, m`requests
    ensures Underway(m, w)
    ensures r == Held || Sighted(old(m.facts), w) ==> Sighted(m.facts, w)
    ensures Made(j, Probe(r), old(m.requests), m.requests)
  {
    ghost var facts, k := m.facts, m.k;
    var current := m.Resolve();
    WatchedLookup(facts, k, m.k, w, m.facts);
    SightedStays(facts, m.facts, w);
    r := Judge(current, endpoint, pids);
    if r == Held {
      SightedNow(facts, m.facts, w, current.value);
    }
    MadeOfOne(j, Probe(r), old(m.requests), Lookup(current));
  }

  // ---- Run ----

  // Each of these makes one call and moves on to the next state.

  method PauseAt(m: Machine, d: int, ghost w: Watch, ghost j: Job, ghost t: Trace,
      ghost hard: bool, ghost i: nat, ghost spent: int, ghost budget: int, ghost sent: bool)
    returns (ghost next: Trace)
    requires Underway(m, w) && Sighted(m.facts, w) && Reached(m, j, t)
    requires t.state == Waiting(hard, i, spent, budget, sent) && d == PollSchedule(i)
    modifies m`k, m`requests
    ensures Underway(m, w) && Sighted(m.facts, w)
    ensures Reached(m, j, next) && next.state == Slept(hard, i, spent + d, budget, sent)
  {
    Pause(m, d, w, j);
    ghost var s := Slept(hard, i, spent + d, budget, sent);
    next := With(t, Sleep(d), |old(m.requests)|, s);
    TracedNext(j, old(m.requests), t, Sleep(d), m.requests, s);
  }

  method ProbeAt(m: Machine, endpoint: AddrPort, pids: seq<nat>, ghost w: Watch, ghost j: Job, ghost t: Trace)
    returns (r: ProbeReply, ghost next: Trace)
    requires Underway(m, w) && Serves(j, w) && endpoint == w.endpoint && pids == w.pids
    requires Reached(m, j, t) && t.state == Starting
    modifies m`k, m`facts, m`requests
    ensures Underway(m, w) && (r == Held || Sighted(old(m.facts), w) ==> Sighted(m.facts, w))
    ensures Reached(m, j, next) && Step(j.o, Lead(j.ctl).meta.pid, t.state, Probe(r)) == Some(next.state)
  {
    r := ProbePort(m, endpoint, pids, w, j);
    ghost var s := Step(j.o, Lead(j.ctl).meta.pid, t.state, Probe(r)).value;
    next := With(t, Probe(r), |old(m.requests)|, s);
    TracedNext(j, old(m.requests), t, Probe(r), m.requests, s);
  }

  method SendAt(m: Machine, ctl: Controller, sig: Signal, ghost w: Watch, ghost j: Job, ghost t: Trace)
    returns (e: Option<PinError>, ghost next: Trace)
    requires Underway(m, w) && Sighted(m.facts, w) && j.ctl == ctl && Serves(j, w)
    requires Reached(m, j, t) && (if sig == Term then t.state.Asking? else t.state.Killing?)
    modifies m`k, m`calls, m`facts, m`requests
    ensures Underway(m, w) && Sighted(m.facts, w)
    ensures Reached(m, j, next) && Step(j.o, Lead(j.ctl).meta.pid, t.state, CallOf(sig, e)) == Some(next.state)
  {
    e := Send(m, ctl, sig, w, j);
    ghost var s := Step(j.o, Lead(j.ctl).meta.pid, t.state, CallOf(sig, e)).value;
    next := With(t, CallOf(sig, e), |old(m.requests)|, s);
    TracedNext(j, old(m.requests), t, CallOf(sig, e), m.requests, s);
  }

  method ExamineAt(m: Machine, ctl: Controller, ghost w: Watch, ghost j: Job, ghost t: Trace)
    returns (l: Result<Lifecycle, int>, ghost next: Trace)
    requires Underway(m, w) && Sighted(m.facts, w) && j.ctl == ctl && Serves(j, w)
    requires Reached(m, j, t) && t.state.Examining?
    modifies m`k, m`requests
    ensures Underway(m, w) && Sighted(m.facts, w)
    ensures Reached(m, j, next) && Step(j.o, Lead(j.ctl).meta.pid, t.state, Call.Lifecycle(l)) == Some(next.state)
  {
    l := Examine(m, ctl, w, j);
    ghost var s := Step(j.o, Lead(j.ctl).meta.pid, t.state, Call.Lifecycle(l)).value;
    next := With(t, Call.Lifecycle(l), |old(m.requests)|, s);
    TracedNext(j, old(m.requests), t, Call.Lifecycle(l), m.requests, s);
  }

  // Where a wait leads.
  function AfterWait(pid: nat, hard: bool, sent: bool, released: bool, err: Option<int>): State {
    if err.Some? then Done(Escalation.Teardown(Failed, pid, FromProbe(err.value), sent, hard))
    else if hard then Done(Escalation.Teardown(if released then Released else TimedOut, pid, NoCause, sent, true))
    else Examining(released, sent)
  }

  // Where a round of a wait leads.
  function AfterRound(pid: nat, hard: bool, i: nat, spent: int, budget: int, sent: bool, r: ProbeReply): State {
    match r
    case ProbeFailed(code) => AfterWait(pid, hard, sent, false, Some(code))
    case Free => AfterWait(pid, hard, sent, true, None)
    case Held => WaitHead(pid, hard, i + 1, spent, budget, sent)
  }

  lemma RoundLeads(o: Options, pid: nat, hard: bool, i: nat, spent: int, budget: int, sent: bool, r: ProbeReply)
    ensures Step(o, pid, Slept(hard, i, spent, budget, sent), Probe(r)) ==
      Some(AfterRound(pid, hard, i, spent, budget, sent, r))
  {
  }

  // Round i of a wait is about to begin, if the budget has not been used up.
  ghost predicate AtRound(m: Machine, w: Watch, j: Job, t: Trace, hard: bool, i: int, spent: int, budget: int,
      sent: bool)
    reads m, w.targets
  {
    && Underway(m, w) && Sighted(m.facts, w) && Reached(m, j, t)
    && i >= 0 && t.state == WaitHead(Lead(j.ctl).meta.pid, hard, i, spent, budget, sent)
  }

  ghost predicate WaitOver(m: Machine, w: Watch, j: Job, t: Trace, hard: bool, sent: bool, released: bool,
      err: Option<int>)
    reads m, w.targets
  {
    && Underway(m, w) && Sighted(m.facts, w) && Reached(m, j, t)
    && t.state == AfterWait(Lead(j.ctl).meta.pid, hard, sent, released, err)
  }

  // The second half of a round of a wait; it is the last round unless the
  // endpoint is still held.
  method ProbeRound(m: Machine, endpoint: AddrPort, pids: seq<nat>, ghost w: Watch, ghost j: Job, ghost t: Trace,
      ghost hard: bool, ghost i: nat, ghost spent: int, ghost budget: int, ghost sent: bool)
    returns (last: bool, released: bool, err: Option<int>, ghost next: Trace)
    requires Underway(m, w) && Serves(j, w) && endpoint == w.endpoint && pids == w.pids && Sighted(m.facts, w)
    requires Reached(m, j, t) && t.state == Slept(hard, i, spent, budget, sent)
    modifies m`k, m`facts, m`requests
    ensures if last
      then WaitOver(m, w, j, next, hard, sent, released, err)
      else AtRound(m, w, j, next, hard, i + 1, spent, budget, sent)
    ensures !last ==> !released && err == None
  {
    var r := ProbePort(m, endpoint, pids, w, j);
    RoundLeads(j.o, Lead(j.ctl).meta.pid, hard, i, spent, budget, sent, r);
    ghost var s := AfterRound(Lead(j.ctl).meta.pid, hard, i, spent, budget, sent, r);
    next := With(t, Probe(r), |old(m.requests)|, s);
    TracedNext(j, old(m.requests), t, Probe(r), m.requests, s);
    match r {
      case ProbeFailed(code) => last, released, err := true, false, Some(code);
      case Free => last, released, err := true, true, None;
      case Held => last, released, err := false, false, None;
    }
  }

  method SleepAndProbe(m: Machine, d: int, endpoint: AddrPort, pids: seq<nat>, ghost w: Watch, ghost j: Job,
      ghost t: Trace, ghost hard: bool, ghost i: nat, ghost spent: int, ghost budget: int, ghost sent: bool)
    returns (last: bool, released: bool, err: Option<int>, ghost next: Trace)
    requires Serves(j, w) && endpoint == w.endpoint && pids == w.pids
    requires AtRound(m, w, j, t, hard, i, spent, budget, sent) && spent < budget && d == PollSchedule(i)
    modifies m`k, m`facts, m`requests
    ensures if last
      then WaitOver(m, w, j, next, hard, sent, released, err)
      else AtRound(m, w, j, next, hard, i + 1, spent + d, budget, sent)
    ensures !last ==> !released && err == None
  {
    next := PauseAt(m, d, w, j, t, hard, i, spent, budget, sent);
    last, released, err, next := ProbeRound(m, endpoint, pids, w, j, next, hard, i, spent + d, budget, sent);
  }

  method WaitForRelease(m: Machine, endpoint: AddrPort, pids: seq<nat>, budget: int, ghost w: Watch, ghost j: Job,
      ghost t: Trace, ghost hard: bool, ghost sent: bool)
    returns (released: bool, err: Option<int>, ghost next: Trace)
    requires Serves(j, w) && endpoint == w.endpoint && pids == w.pids
    requires AtRound(m, w, j, t, hard, 0, 0, budget, sent)
    modifies m`k, m`facts, m`requests
    ensures WaitOver(m, w, j, next, hard, sent, released, err)
  {
    var spent, i := 0, 0;
    released, err, next := false, None, t;
    while spent < budget
      invariant !released && err == None && i >= 0
      invariant AtRound(m, w, j, next, hard, i, spent, budget, sent)
      decreases budget - spent
    {
      var d, last := PollSchedule(i), false;
      last, released, err, next := SleepAndProbe(m, d, endpoint, pids, w, j, next, hard, i, spent, budget, sent);
      if last {
        return;
      }
      spent, i := spent + d, i + 1;
    }
  }

  // Stage 1: ask. No result means the escalation goes on to wait.
  method Ask(m: Machine, ctl: Controller, o: Options, ghost w: Watch, ghost j: Job, ghost t: Trace)
    returns (res: Option<Escalation.Teardown>, gracePeriod: int, sent: bool, ghost next: Trace)
    requires Underway(m, w) && Sighted(m.facts, w) && j.ctl == ctl && j.o == o && Serves(j, w)
    requires Reached(m, j, t) && t.state == Asking
    modifies m`k, m`calls, m`facts, m`requests
    ensures Underway(m, w) && Sighted(m.facts, w)
    ensures Reached(m, j, next)
    ensures next.state ==
      if res.Some? then Done(res.value) else WaitHead(Lead(ctl).meta.pid, false, 0, 0, gracePeriod, sent)
  {
    res, gracePeriod, sent := None, o.timeout, false;
    var e;
    e, next := SendAt(m, ctl, Term, w, j, t);
    match e {
      case None => sent := true;
      case Some(NoConsole) => gracePeriod := o.noConsoleWait;
      case Some(ProcessGone) =>
      case Some(error) => res := Some(Aborted(Lead(ctl).meta.pid, error, false, false));
    }
  }

  // Stage 3: a zombie ends the run, and so does a free endpoint.
  method Review(m: Machine, ctl: Controller, ghost w: Watch, ghost j: Job, ghost t: Trace, released: bool, sent: bool)
    returns (res: Option<Escalation.Teardown>, ghost next: Trace)
    requires Underway(m, w) && Sighted(m.facts, w) && j.ctl == ctl && Serves(j, w)
    requires Reached(m, j, t) && t.state == Examining(released, sent)
    modifies m`k, m`requests
    ensures Underway(m, w) && Sighted(m.facts, w)
    ensures Reached(m, j, next)
    ensures next.state == if res.Some? then Done(res.value) else Killing(sent)
  {
    var l;
    l, next := ExamineAt(m, ctl, w, j, t);
    res := None;
    if l == Ok(Zombie) {
      res := Some(Escalation.Teardown(ZombieLeft, Lead(ctl).meta.pid, NoCause, sent, false));
    } else if released {
      res := Some(Escalation.Teardown(Released, Lead(ctl).meta.pid, NoCause, sent, false));
    }
  }

  // Stages 1 to 3: ask, wait, and look at what became of the process. No result
  // means the escalation goes on to the hard kill.
  method GracefulStage(m: Machine, ctl: Controller, endpoint: AddrPort, pids: seq<nat>, o: Options, ghost w: Watch,
      ghost j: Job, ghost t: Trace)
    returns (res: Option<Escalation.Teardown>, sent: bool, ghost next: Trace)
    requires Underway(m, w) && Sighted(m.facts, w) && j.ctl == ctl && j.o == o && Serves(j, w)
    requires endpoint == w.endpoint && pids == w.pids && Reached(m, j, t) && t.state == Asking
    modifies m`k, m`calls, m`facts, m`requests
    ensures Underway(m, w) && Sighted(m.facts, w)
    ensures Reached(m, j, next)
    ensures next.state == if res.Some? then Done(res.value) else Killing(sent)
  {
    var pid := Lead(ctl).meta.pid;
    var gracePeriod;
    res, gracePeriod, sent, next := Ask(m, ctl, o, w, j, t);
    if res.Some? {
      return;
    }
    var released, failed;
    released, failed, next := WaitForRelease(m, endpoint, pids, gracePeriod, w, j, next, false, sent);
    if failed.Some? {
      res := Some(Escalation.Teardown(Failed, pid, FromProbe(failed.value), sent, false));
      return;
    }
    res, next := Review(m, ctl, w, j, next, released, sent);
  }

  // Stage 4: the hard kill and a last wait.
  method HardStage(m: Machine, ctl: Controller, endpoint: AddrPort, pids: seq<nat>, o: Options, sent: bool,
      ghost w: Watch, ghost j: Job, ghost t: Trace)
    returns (res: Escalation.Teardown, ghost next: Trace)
    requires Underway(m, w) && Sighted(m.facts, w) && j.ctl == ctl && j.o == o && Serves(j, w)
    requires endpoint == w.endpoint && pids == w.pids && Reached(m, j, t) && t.state == Killing(sent)
    modifies m`k, m`calls, m`facts, m`requests
    ensures Underway(m, w)
    ensures Reached(m, j, next) && next.state == Done(res)
  {
    var pid := Lead(ctl).meta.pid;
    var e;
    e, next := SendAt(m, ctl, Kill, w, j, t);
    if e.Some? && e != Some(ProcessGone) {
      res := Aborted(pid, e.value, sent, true);
      return;
    }
    var released, failed;
    released, failed, next := WaitForRelease(m, endpoint, pids, o.hardWait, w, j, next, true, sent);
    res := if failed.Some? then Escalation.Teardown(Failed, pid, FromProbe(failed.value), sent, true)
      else Escalation.Teardown(if released then Released else TimedOut, pid, NoCause, sent, true);
  }

  // All that follows when the endpoint is held.
  method Escalate(m: Machine, ctl: Controller, endpoint: AddrPort, pids: seq<nat>, o: Options, ghost w: Watch,
      ghost j: Job, ghost t: Trace)
    returns (res: Escalation.Teardown, ghost next: Trace)
    requires Underway(m, w) && Sighted(m.facts, w) && j.ctl == ctl && j.o == o && Serves(j, w)
    requires endpoint == w.endpoint && pids == w.pids && Reached(m, j, t)
    requires t.state == if o.force then Killing(false) else Asking
    modifies m`k, m`calls, m`facts, m`requests
    ensures Underway(m, w)
    ensures Reached(m, j, next) && next.state == Done(res)
  {
    var sent := false;
    next := t;
    if !o.force {
      var done;
      done, sent, next := GracefulStage(m, ctl, endpoint, pids, o, w, j, t);
      if done.Some? {
        res := done.value;
        return;
      }
    }
    res, next := HardStage(m, ctl, endpoint, pids, o, sent, w, j, next);
  }

  // The requests Run makes are exactly those of an accepted run with its result,
  // and every signal it sends is justified.
  method Run(m: Machine, ctl: Controller, endpoint: AddrPort, pids: seq<nat>, o: Options, ghost w: Watch, ghost j: Job)
    returns (res: Escalation.Teardown)
    requires Underway(m, w) && j == Job(ctl, endpoint, o, j.pidfd, m.requests) && Serves(j, w) && pids == w.pids
    modifies m`k, m`calls, m`facts, m`requests
    ensures Underway(m, w) && old(m.requests) <= m.requests
    ensures Ran(CrewOf(ctl), endpoint, o, j.pidfd, res, m.requests[|old(m.requests)|..])
  {
    var pid := Lead(ctl).meta.pid;
    TracedStarts(j);
    ghost var t := Trace([], Starting);
    var r;
    r, t := ProbeAt(m, endpoint, pids, w, j, t);
    match r {
      case ProbeFailed(code) => res := Escalation.Teardown(Failed, pid, FromProbe(code), false, false);
      case Free => res := Escalation.Teardown(Released, pid, NoCause, false, false);
      case Held => res, t := Escalate(m, ctl, endpoint, pids, o, w, j, t);
    }
    TraceRan(j, m.requests, t, res);
  }
}
