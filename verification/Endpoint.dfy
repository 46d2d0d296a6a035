// What the result of a run says about the endpoint.
module Endpoint {
  import opened Model
  import opened Kernel
  import opened Machine
  import opened Escalation
  import opened Conduct
  import opened Outcomes

  // ---- the last lookup ----

  // What the last lookup told.
  function LastTold(crew: Crew, endpoint: AddrPort, requests: seq<Request>): Option<ProbeReply> {
    if requests == [] then None
    else
      var last := requests[|requests| - 1];
      if last.Lookup? then Some(Told(last.found, endpoint, crew.pids))
      else LastTold(crew, endpoint, requests[..|requests| - 1])
  }

  lemma {:induction false} LastToldAppend(crew: Crew, endpoint: AddrPort, rs: seq<Request>, more: seq<Request>)
    requires forall j :: 0 <= j < |more| ==> !more[j].Lookup?
    ensures LastTold(crew, endpoint, rs + more) == LastTold(crew, endpoint, rs)
    decreases |more|
  {
    if more == [] {
      assert rs + more == rs;
    } else {
      LastToldAppend(crew, endpoint, rs, more[..|more| - 1]);
      assert (rs + more)[..|rs + more| - 1] == rs + more[..|more| - 1];
    }
  }

  lemma {:induction false} LastToldIsLastProbe(crew: Crew, endpoint: AddrPort, log: seq<Call>, requests: seq<Request>)
    requires Backed(crew, endpoint, log, requests)
    ensures LastTold(crew, endpoint, requests) == LastProbe(log)
    decreases |log|
  {
    if log != [] {
      var init, c, earlier, rs := BackedLast(crew, endpoint, log, requests);
      LastToldIsLastProbe(crew, endpoint, init, earlier);
      Measures(init, c);
      if !c.Probe? {
        assert forall j :: 0 <= j < |rs| ==> !rs[j].Lookup?;
        LastToldAppend(crew, endpoint, earlier, rs);
      }
    }
  }

  // Released only when the last lookup reported none of the processes at the
  // endpoint; a timeout only when all of them reported one, and everybody was asked
  // to die.
  lemma PortAtTheEnd(crew: Crew, endpoint: AddrPort, o: Options, pidfd: bool, res: Teardown, requests: seq<Request>)
    requires Ran(crew, endpoint, o, pidfd, res, requests) && crew.Valid()
    ensures res.outcome == Released ==> LastTold(crew, endpoint, requests) == Some(Free)
    ensures res.outcome == TimedOut ==>
      HeldSoFar(crew, endpoint, requests) && Asks(crew.pids, Kill, Asked(requests, Kill))
  {
    var log: seq<Call> :| Accepts(o, crew.lead, log, res) && Backed(crew, endpoint, log, requests);
    LastToldIsLastProbe(crew, endpoint, log, requests);
    HeldSoFarIff(crew, endpoint, log, requests);
    OutcomeMeaning(o, crew.lead, log, res);
    EverybodyIsAskedOnce(crew, endpoint, o, pidfd, res, requests);
  }

  // ---- released ----

  // What the last lookup reported.
  function LastFound(requests: seq<Request>): Option<Result<seq<Binding>, int>> {
    if requests == [] then None
    else
      var last := requests[|requests| - 1];
      if last.Lookup? then Some(last.found) else LastFound(requests[..|requests| - 1])
  }

  lemma {:induction false} LastToldIsOfLastFound(crew: Crew, endpoint: AddrPort, requests: seq<Request>)
    ensures LastTold(crew, endpoint, requests) ==
      if LastFound(requests).None? then None else Some(Told(LastFound(requests).value, endpoint, crew.pids))
  {
    if requests != [] {
      LastToldIsOfLastFound(crew, endpoint, requests[..|requests| - 1]);
    }
  }

  // The endpoint is held by somebody else, or nobody can say by whom.
  predicate HeldByStranger(b: Binding, endpoint: AddrPort, pids: seq<nat>) {
    b.endpoint == endpoint && (b.proc.None? || b.proc.value.pid !in pids)
  }

  // What "released" means: the last lookup reported none of the processes at the
  // endpoint. It reported nobody there at all exactly when it reported no stranger.
  lemma ReleasedMeansFreeIff(crew: Crew, endpoint: AddrPort, o: Options, pidfd: bool, res: Teardown,
      requests: seq<Request>)
    requires Ran(crew, endpoint, o, pidfd, res, requests) && crew.Valid() && res.outcome == Released
    ensures LastFound(requests).Some? && LastFound(requests).value.Ok?
    ensures var bs := LastFound(requests).value.value;
      && (forall b :: b in bs ==> !HeldBy(b, endpoint, crew.pids))
      && ((forall b :: b in bs ==> b.endpoint != endpoint)
        <==> forall b :: b in bs ==> !HeldByStranger(b, endpoint, crew.pids))
  {
    PortAtTheEnd(crew, endpoint, o, pidfd, res, requests);
    LastToldIsOfLastFound(crew, endpoint, requests);
    var bs := LastFound(requests).value.value;
    forall b | b in bs
      ensures !HeldBy(b, endpoint, crew.pids)
    {
      var j :| 0 <= j < |bs| && bs[j] == b;
    }
  }

  // A run of process 7 is released although its only lookup reports process 99 at
  // the endpoint.
  lemma ReleasedMayBeHeld(o: Options, pidfd: bool, other: ProcMeta)
    requires other.pid == 99
    ensures var b := Binding(SOMEWHERE, TCP, Listen, 5, Some(other));
      Ran(Crew(7, [7], false), SOMEWHERE, o, pidfd, Teardown(Released, 7, NoCause, false, false), [Lookup(Ok([b]))])
  {
    var crew := Crew(7, [7], false);
    var b := Binding(SOMEWHERE, TCP, Listen, 5, Some(other));
    AfterNext(o, 7, [], Probe(Free));
    assert [b][0] == b;
    BackedNext(crew, SOMEWHERE, [], [], Probe(Free), [Lookup(Ok([b]))]);
    assert [] + [Probe(Free)] == [Probe(Free)] && [] + [Lookup(Ok([b]))] == [Lookup(Ok([b]))];
    assert Accepts(o, 7, [Probe(Free)], Teardown(Released, 7, NoCause, false, false));
  }

  // ---- a zombie ----

  // The last request is a report about this state.
  predicate ReportedIn(requests: seq<Request>, at: KernelState) {
    |requests| > 0 && requests[|requests| - 1].Report? && requests[|requests| - 1].at == at
  }

  // In this state none of the processes holds the endpoint.
  predicate LetGo(k: KernelState, endpoint: AddrPort, pids: seq<nat>) {
    forall s :: s in k.sockets && s.1 == endpoint ==> s.0.pid !in pids
  }

  // Nobody does.
  predicate Unheld(k: KernelState, endpoint: AddrPort) {
    forall s :: s in k.sockets ==> s.1 != endpoint
  }

  lemma ZombieIsReportedLast(crew: Crew, endpoint: AddrPort, o: Options, pidfd: bool, res: Teardown,
      requests: seq<Request>)
    requires Ran(crew, endpoint, o, pidfd, res, requests) && res.outcome == ZombieLeft
    ensures !o.force && |requests| > 0
    ensures var last := requests[|requests| - 1];
      last.Report? && last.pid == crew.lead && last.life == Ok(Zombie)
  {
    var log: seq<Call> :| Accepts(o, crew.lead, log, res) && Backed(crew, endpoint, log, requests);
    if o.force {
      ForceSeesNoZombie(o, crew.lead, log, res);
    }
    OutcomeMeaning(o, crew.lead, log, res);
    var init, c, earlier, rs := BackedLast(crew, endpoint, log, requests);
    assert requests[|requests| - 1] == rs[0];
  }

  // A run that reports a zombie, and truly.
  ghost predicate ZombieRan(crew: Crew, endpoint: AddrPort, o: Options, pidfd: bool, res: Teardown,
      requests: seq<Request>) {
    Ran(crew, endpoint, o, pidfd, res, requests) && Truthful(requests) && res.outcome == ZombieLeft
  }

  // The zombie itself holds nothing any more.
  lemma ZombieLetsGo(crew: Crew, endpoint: AddrPort, o: Options, pidfd: bool, res: Teardown, requests: seq<Request>,
      at: KernelState)
    requires ZombieRan(crew, endpoint, o, pidfd, res, requests) && ReportedIn(requests, at)
    ensures LetGo(at, endpoint, [crew.lead])
  {
    ZombieIsReportedLast(crew, endpoint, o, pidfd, res, requests);
    assert Right(requests[|requests| - 1]);
    ZombieHoldsNothing(at, crew.lead);
  }

  // Whenever a zombie is reported, none of the processes holds the endpoint.
  ghost predicate ZombieMeansLetGo(o: Options, crew: Crew, pidfd: bool) {
    forall endpoint, res, requests, at ::
      ZombieRan(crew, endpoint, o, pidfd, res, requests) && ReportedIn(requests, at) ==>
      LetGo(at, endpoint, crew.pids)
  }

  // Whenever a zombie is reported, nobody holds the endpoint.
  ghost predicate ZombieMeansUnheld(o: Options, crew: Crew, pidfd: bool) {
    forall endpoint, res, requests, at ::
      ZombieRan(crew, endpoint, o, pidfd, res, requests) && ReportedIn(requests, at) ==>
      Unheld(at, endpoint)
  }

  // A run may report the zombie in any state in which there is one, even when
  // every lookup reported the endpoint held.
  lemma ZombieReported(o: Options, crew: Crew, pidfd: bool, at: KernelState)
    returns (res: Teardown, requests: seq<Request>)
    requires crew.Valid() && !o.force && WellFormed(at) && crew.lead in at.table && at.table[crew.lead] in at.zombies
    ensures ZombieRan(crew, SOMEWHERE, o, pidfd, res, requests) && ReportedIn(requests, at)
  {
    var log := HeldThroughout(o, crew.lead, Ok(Zombie));
    res := Teardown(ZombieLeft, crew.lead, NoCause, true, false);
    requests := EveryLogIsPossible(crew, SOMEWHERE, log, at);
    assert Accepts(o, crew.lead, log, res) && Backed(crew, SOMEWHERE, log, requests);
    assert Ran(crew, SOMEWHERE, o, pidfd, res, requests);
    ZombieIsReportedLast(crew, SOMEWHERE, o, pidfd, res, requests);
    assert requests[|requests| - 1] in requests;
    forall n | 0 <= n < |requests|
      ensures Right(requests[n])
    {
      assert requests[n] in requests;
    }
  }

  // Two processes held the endpoint; the first is a zombie now.
  function HalfGone(lead: nat, other: nat): KernelState {
    var i, j := Instance(lead, 1, 0), Instance(other, 1, 1);
    KernelState(map[lead := i, other := j], {i, j}, {i}, {(j, SOMEWHERE)})
  }

  lemma HalfGoneIsReached(lead: nat, other: nat)
    requires lead != other
    ensures WellFormed(HalfGone(lead, other)) && !LetGo(HalfGone(lead, other), SOMEWHERE, [other])
    ensures exists k ::
      WellFormed(k) && Evolves(k, HalfGone(lead, other)) && k.zombies == {} && !LetGo(k, SOMEWHERE, [lead])
  {
    var i, j := Instance(lead, 1, 0), Instance(other, 1, 1);
    var k := KernelState(map[lead := i, other := j], {i, j}, {}, {(i, SOMEWHERE), (j, SOMEWHERE)});
    EvolvesNow(k);
    EvolvesOne(k, k, Exits(i));
    assert Apply(k, Exits(i)).sockets == {(j, SOMEWHERE)};
    assert Apply(k, Exits(i)) == HalfGone(lead, other);
    assert (i, SOMEWHERE) in k.sockets && (j, SOMEWHERE) in HalfGone(lead, other).sockets;
  }

  // At a zombie report none of the processes holds the endpoint exactly when none
  // is ever reported, or the zombie is the only process.
  lemma ZombieMeansLetGoIff(o: Options, crew: Crew, pidfd: bool)
    requires crew.Valid()
    ensures ZombieMeansLetGo(o, crew, pidfd) <==> o.force || forall p :: p in crew.pids ==> p == crew.lead
  {
    forall endpoint, res, requests, at |
      ZombieRan(crew, endpoint, o, pidfd, res, requests) && ReportedIn(requests, at)
      ensures !o.force && LetGo(at, endpoint, [crew.lead])
    {
      ZombieIsReportedLast(crew, endpoint, o, pidfd, res, requests);
      ZombieLetsGo(crew, endpoint, o, pidfd, res, requests, at);
    }
    if p :| !o.force && p in crew.pids && p != crew.lead {
      HalfGoneIsReached(crew.lead, p);
      var res, requests := ZombieReported(o, crew, pidfd, HalfGone(crew.lead, p));
      assert !LetGo(HalfGone(crew.lead, p), SOMEWHERE, crew.pids);
    }
  }

  // Nobody at all holds it exactly when none is ever reported: a child of the
  // zombie may have inherited its socket.
  lemma ZombieMeansUnheldIff(o: Options, crew: Crew, pidfd: bool)
    requires crew.Valid()
    ensures ZombieMeansUnheld(o, crew, pidfd) <==> o.force
  {
    if o.force {
      forall endpoint, res, requests | ZombieRan(crew, endpoint, o, pidfd, res, requests)
        ensures false
      {
        ZombieIsReportedLast(crew, endpoint, o, pidfd, res, requests);
      }
    } else {
      HalfGoneIsReached(crew.lead, crew.lead + 1);
      var res, requests := ZombieReported(o, crew, pidfd, HalfGone(crew.lead, crew.lead + 1));
      assert !Unheld(HalfGone(crew.lead, crew.lead + 1), SOMEWHERE);
    }
  }

  function Seven(grouped: bool): Crew {
    if grouped then Crew(7, [8, 7], true) else Crew(7, [7], false)
  }

  // In the group of 7 and 8 the lead 7 is reported a zombie while 8 holds the
  // endpoint; of 7 alone, while its child 8 does.
  lemma ZombieWhileHeld(grouped: bool)
    ensures !LetGo(HalfGone(7, 8), SOMEWHERE, [8])
    ensures exists o, res, requests ::
      ZombieRan(Seven(grouped), SOMEWHERE, o, true, res, requests) && ReportedIn(requests, HalfGone(7, 8))
  {
    HalfGoneIsReached(7, 8);
    var res, requests := ZombieReported(Options(false, 0, 0, 0), Seven(grouped), true, HalfGone(7, 8));
  }
}
