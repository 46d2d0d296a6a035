// What the result of a run says about the signals and the time.
module Outcomes {
  import opened Model
  import opened Kernel
  import opened Machine
  import opened GroupErrors
  import opened Escalation
  import opened Conduct
  import Course

  // ---- time and probes ----

  function TimeTaken(requests: seq<Request>): int {
    if requests == [] then 0
    else
      var last := requests[|requests| - 1];
      TimeTaken(requests[..|requests| - 1]) + if last.Nap? then last.duration else 0
  }

  function Lookups(requests: seq<Request>): nat {
    if requests == [] then 0
    else Lookups(requests[..|requests| - 1]) + if requests[|requests| - 1].Lookup? then 1 else 0
  }

  lemma {:induction false} TallyAppend(rs: seq<Request>, more: seq<Request>)
    ensures TimeTaken(rs + more) == TimeTaken(rs) + TimeTaken(more)
    ensures Lookups(rs + more) == Lookups(rs) + Lookups(more)
    decreases |more|
  {
    if more == [] {
      assert rs + more == rs;
    } else {
      TallyAppend(rs, more[..|more| - 1]);
      assert (rs + more)[..|rs + more| - 1] == rs + more[..|more| - 1];
    }
  }

  lemma {:induction false} TallyOfAsks(pids: seq<nat>, sig: Signal, rs: seq<Request>)
    requires Asks(pids, sig, rs)
    ensures TimeTaken(rs) == 0 && Lookups(rs) == 0
    decreases |rs|
  {
    if rs != [] {
      TallyOfAsks(pids[..|rs| - 1], sig, rs[..|rs| - 1]);
    }
  }

  lemma {:induction false} TallyFollowsLog(crew: Crew, endpoint: AddrPort, log: seq<Call>, requests: seq<Request>)
    requires Backed(crew, endpoint, log, requests)
    ensures TimeTaken(requests) == SleptFor(log) && Lookups(requests) == Probes(log)
    decreases |log|
  {
    if log != [] {
      var init, c, earlier, rs := BackedLast(crew, endpoint, log, requests);
      TallyFollowsLog(crew, endpoint, init, earlier);
      TallyAppend(earlier, rs);
      Measures(init, c);
      match c
      case Graceful(_) => TallyOfAsks(crew.pids, Term, rs);
      case Hard(_) => TallyOfAsks(crew.pids, Kill, rs);
      case _ => assert rs[..0] == [];
    }
  }

  // portpin sleeps less than the larger graceful budget plus the hard budget plus
  // 200 ms, and looks the port up no more often than the rounds of that allow.
  lemma RunTakes(crew: Crew, endpoint: AddrPort, o: Options, pidfd: bool, res: Teardown, requests: seq<Request>)
    requires Ran(crew, endpoint, o, pidfd, res, requests)
    ensures TimeTaken(requests) < Max(Max(o.timeout, o.noConsoleWait), 0) + Max(o.hardWait, 0) + 200 * MS
    ensures Lookups(requests) <= 1 + GraceRounds(o) + Rounds(o.hardWait)
  {
    var log: seq<Call> :| Accepts(o, crew.lead, log, res) && Backed(crew, endpoint, log, requests);
    TallyFollowsLog(crew, endpoint, log, requests);
    RunIsBounded(o, crew.lead, log, res);
  }

  // ---- errors ----

  // With one call for this signal, what was asked is what that call asked.
  lemma OneCallFor(crew: Crew, endpoint: AddrPort, o: Options, log: seq<Call>, res: Teardown, requests: seq<Request>,
      sig: Signal)
    requires Accepts(o, crew.lead, log, res) && Backed(crew, endpoint, log, requests) && Asked(requests, sig) != []
    ensures Asks(crew.pids, sig, Asked(requests, sig))
    ensures CallsFor(log, sig) == [CallOf(sig, Answer(crew, Asked(requests, sig)))]
  {
    CallDiscipline(o, crew.lead, log, res);
    AskedFollowsCalls(crew, endpoint, log, requests, sig);
    HardsAreCalls(log);
    GracefulAtOne(log);
  }

  lemma {:induction false} CallForIsMade(log: seq<Call>, sig: Signal, c: Call) returns (i: nat)
    requires c in CallsFor(log, sig)
    ensures i < |log| && log[i] == c
  {
    if c == log[|log| - 1] {
      i := |log| - 1;
    } else {
      i := CallForIsMade(log[..|log| - 1], sig, c);
    }
  }

  // What the last call asked is all that was asked for its signal.
  lemma AskedLast(crew: Crew, endpoint: AddrPort, log: seq<Call>, requests: seq<Request>, sig: Signal)
    requires Backed(crew, endpoint, log, requests) && log != [] && Calls(log[|log| - 1], sig)
    requires Asks(crew.pids, sig, Asked(requests, sig))
    ensures |Asked(requests, sig)| <= |requests|
    ensures requests[|requests| - |Asked(requests, sig)|..] == Asked(requests, sig)
  {
    var init, c, earlier, rs := BackedLast(crew, endpoint, log, requests);
    assert c == log[|log| - 1];
    AskedAppend(earlier, rs, sig);
    AskedInCall(crew, endpoint, c, rs, sig);
    assert |Asked(earlier, sig)| == 0 && [] + rs == rs;
  }

  // When the processes answer a request to signal with an error that the
  // escalation does not provide for, nothing is requested after it, and the result
  // reports that error.
  lemma AnswerEndsTheRun(crew: Crew, endpoint: AddrPort, o: Options, pidfd: bool, res: Teardown, requests: seq<Request>,
      sig: Signal, e: PinError)
    requires Ran(crew, endpoint, o, pidfd, res, requests) && crew.Valid() && Asked(requests, sig) != []
    requires Asks(crew.pids, sig, Asked(requests, sig)) && Answer(crew, Asked(requests, sig)) == Some(e)
    requires e != ProcessGone && (sig == Term ==> e != NoConsole)
    ensures |Asked(requests, sig)| <= |requests| && res.cause == FromController(e)
    ensures requests[|requests| - |Asked(requests, sig)|..] == Asked(requests, sig)
    ensures res.outcome == Changed <==> e == IdentityChanged
    ensures res.outcome == Denied <==> e == PermissionDenied
    ensures res.outcome == Failed <==> e == NoConsole || e.OtherError?
  {
    var log: seq<Call> :| Accepts(o, crew.lead, log, res) && Backed(crew, endpoint, log, requests);
    OneCallFor(crew, endpoint, o, log, res, requests, sig);
    var i := CallForIsMade(log, sig, CallOf(sig, Some(e)));
    Course.ErrorEndsTheRun(o, crew.lead, log, res, i, e);
    AskedLast(crew, endpoint, log, requests, sig);
  }

  // A lookup that failed is the last request, and the result reports its error.
  lemma FailedLookupEndsTheRun(crew: Crew, endpoint: AddrPort, o: Options, pidfd: bool, res: Teardown,
      requests: seq<Request>, i: nat, code: int)
    requires Ran(crew, endpoint, o, pidfd, res, requests) && i < |requests| && requests[i] == Lookup(Err(code))
    ensures i == |requests| - 1 && res.outcome == Failed && res.cause == FromProbe(code)
  {
    var log: seq<Call> :| Accepts(o, crew.lead, log, res) && Backed(crew, endpoint, log, requests);
    var k, n, rs := RequestBelongs(crew, endpoint, log, requests, i);
    Course.FailedProbeEndsTheRun(o, crew.lead, log, res, k, code);
    var init, c, earlier, last := BackedLast(crew, endpoint, log, requests);
    if i < |earlier| {
      assert earlier[i] == requests[i];
      k, n, rs := RequestBelongs(crew, endpoint, init, earlier, i);
      assert log[k] == init[k];
      Course.FailedProbeEndsTheRun(o, crew.lead, log, res, k, code);
    }
  }

  // ---- a changed identity ----

  lemma IdentityAnswered(crew: Crew, rs: seq<Request>)
    requires |rs| > 0 && (forall j :: 0 <= j < |rs| ==> rs[j].Attempt?) && Answer(crew, rs) == Some(IdentityChanged)
    ensures exists j :: 0 <= j < |rs| && rs[j].reply == Some(IdentityChanged)
  {
    if crew.grouped {
      IgnorableIsPrimarys(Replies(crew.lead, rs));
      var i :| 0 <= i < |rs| && Replies(crew.lead, rs)[i].reply == Some(IdentityChanged);
      assert rs[i].reply == Some(IdentityChanged);
    } else {
      assert rs[0].reply == Some(IdentityChanged);
    }
  }

  // The last call of a run that reports a changed identity.
  lemma ChangedEndsWith(crew: Crew, endpoint: AddrPort, o: Options, log: seq<Call>, res: Teardown,
      requests: seq<Request>)
    returns (sig: Signal, earlier: seq<Request>, rs: seq<Request>)
    requires Accepts(o, crew.lead, log, res) && Backed(crew, endpoint, log, requests) && res.outcome == Changed
    ensures requests == earlier + rs && Asks(crew.pids, sig, rs)
    ensures |rs| > 0 && Answer(crew, rs) == Some(IdentityChanged)
    ensures log[|log| - 1] == CallOf(sig, Some(IdentityChanged))
  {
    InvariantHolds(o, crew.lead, log);
    var init, c;
    init, c, earlier, rs := BackedLast(crew, endpoint, log, requests);
    assert c == log[|log| - 1];
    sig := if c.Graceful? then Term else Kill;
  }

  // Processes held by pidfds never turn out to be others.
  lemma PidfdsNeverChange(crew: Crew, endpoint: AddrPort, o: Options, res: Teardown, requests: seq<Request>)
    requires Ran(crew, endpoint, o, true, res, requests)
    ensures res.outcome != Changed
  {
    if res.outcome == Changed {
      var log: seq<Call> :| Accepts(o, crew.lead, log, res) && Backed(crew, endpoint, log, requests);
      var sig, earlier, rs := ChangedEndsWith(crew, endpoint, o, log, res, requests);
      assert forall j :: 0 <= j < |rs| ==> requests[|earlier| + j] == rs[j];
      IdentityAnswered(crew, rs);
      assert false;
    }
  }

  lemma {:induction false} AskedHolds(requests: seq<Request>, n: nat)
    requires n < |requests| && requests[n].Attempt?
    ensures requests[n] in Asked(requests, requests[n].signal)
  {
    if n < |requests| - 1 {
      AskedHolds(requests[..|requests| - 1], n);
    }
  }

  lemma OnlyOnce(pids: seq<nat>, before: seq<Request>, rs: seq<Request>)
    requires Asks(pids, Kill, rs) && Asks(pids, Kill, before + rs)
    ensures before + rs == rs
  {
  }

  // All that was asked of it.
  lemma LoneKill(crew: Crew, endpoint: AddrPort, o: Options, pidfd: bool, res: Teardown, requests: seq<Request>)
    returns (rs: seq<Request>)
    requires Ran(crew, endpoint, o, pidfd, res, requests) && crew.Valid() && o.force && res.outcome == Changed
    ensures Asked(requests, Term) == [] && Asked(requests, Kill) == rs
    ensures Asks(crew.pids, Kill, rs) && |rs| > 0 && Answer(crew, rs) == Some(IdentityChanged)
  {
    var log: seq<Call> :| Accepts(o, crew.lead, log, res) && Backed(crew, endpoint, log, requests);
    var sig, earlier;
    sig, earlier, rs := ChangedEndsWith(crew, endpoint, o, log, res, requests);
    CallDiscipline(o, crew.lead, log, res);
    EverybodyIsAskedOnce(crew, endpoint, o, pidfd, res, requests);
    AskedAppend(earlier, rs, Kill);
    AskedAll(crew.pids, Kill, rs, Kill);
    OnlyOnce(crew.pids, Asked(earlier, Kill), rs);
  }

  // One process, and only asked to die: its answer is the only one.
  lemma LoneForcedChange(crew: Crew, endpoint: AddrPort, o: Options, pidfd: bool, res: Teardown, requests: seq<Request>)
    requires Ran(crew, endpoint, o, pidfd, res, requests) && crew.Valid()
    requires o.force && |crew.pids| == 1 && res.outcome == Changed
    ensures Sent(requests) == []
  {
    var rs := LoneKill(crew, endpoint, o, pidfd, res, requests);
    IdentityAnswered(crew, rs);
    forall n | 0 <= n < |requests| && requests[n].Attempt?
      ensures requests[n].reply != None
    {
      AskedHolds(requests, n);
    }
    NothingSent(requests);
  }

  // ---- runs that are possible ----

  // A lookup that tells this.
  function Found(crew: Crew, endpoint: AddrPort, r: ProbeReply): (found: Result<seq<Binding>, int>)
    requires crew.Valid()
    ensures Told(found, endpoint, crew.pids) == r
  {
    var meta := ProcMeta(crew.lead, 0, 0, "", "", [], 0);
    var held := Binding(endpoint, TCP, Listen, 0, Some(meta));
    match r
    case Held =>
      assert HeldBy([held][0], endpoint, crew.pids);
      Ok([held])
    case Free => Ok([])
    case ProbeFailed(code) => Err(code)
  }

  // Everybody answers the same.
  function Unanimous(crew: Crew, sig: Signal, e: Option<PinError>): (rs: seq<Request>)
    ensures Asks(crew.pids, sig, rs) && forall j :: 0 <= j < |rs| ==> rs[j].reply == e
  {
    seq(|crew.pids|, j requires 0 <= j < |crew.pids| => Attempt(crew.pids[j], sig, e))
  }

  lemma UnanimousAnswer(crew: Crew, sig: Signal, e: Option<PinError>)
    requires crew.Valid()
    ensures |Unanimous(crew, sig, e)| > 0 && Answer(crew, Unanimous(crew, sig, e)) == e
  {
    if crew.grouped {
      var k :| 0 <= k < |crew.pids| && crew.pids[k] == crew.lead;
      SameAnswers(Replies(crew.lead, Unanimous(crew, sig, e)), k, e);
    }
  }

  // The requests of a call; a report is about the state `at`.
  function RequestsOf(crew: Crew, endpoint: AddrPort, c: Call, at: KernelState): seq<Request>
    requires crew.Valid()
  {
    match c
    case Probe(r) => [Lookup(Found(crew, endpoint, r))]
    case Graceful(e) => Unanimous(crew, Term, e)
    case Hard(e) => Unanimous(crew, Kill, e)
    case Lifecycle(l) => [Report(crew.lead, l, at)]
    case Sleep(d) => [Nap(d)]
  }

  // An answer that says the process is another.
  predicate Betrays(c: Call) {
    c == Graceful(Some(IdentityChanged)) || c == Hard(Some(IdentityChanged))
  }

  // The reports are about the lead in this state, and part of the log.
  ghost predicate ReportsAbout(crew: Crew, log: seq<Call>, at: KernelState, requests: seq<Request>) {
    forall r :: r in requests && r.Report? ==> r.pid == crew.lead && r.at == at && Call.Lifecycle(r.life) in log
  }

  // Requests that may be those of this log, with its reports about the state `at`.
  ghost predicate Backs(crew: Crew, endpoint: AddrPort, log: seq<Call>, at: KernelState, requests: seq<Request>) {
    && Backed(crew, endpoint, log, requests)
    && (Graceful(None) in log ==> Sent(requests) != [])
    && ReportsAbout(crew, log, at, requests)
    && ((forall c :: c in log ==> !Betrays(c)) ==> Plausible(true, requests))
  }

  lemma PlausibleTogether(rs: seq<Request>, more: seq<Request>)
    requires Plausible(true, rs) && Plausible(true, more)
    ensures Plausible(true, rs + more)
  {
  }

  lemma ReportsTogether(crew: Crew, log: seq<Call>, at: KernelState, rs: seq<Request>, c: Call, more: seq<Request>)
    requires ReportsAbout(crew, log, at, rs) && ReportsAbout(crew, [c], at, more)
    ensures ReportsAbout(crew, log + [c], at, rs + more)
  {
    assert forall d :: d in log || d == c ==> d in log + [c];
  }

  lemma BacksNext(crew: Crew, endpoint: AddrPort, log: seq<Call>, at: KernelState, requests: seq<Request>, c: Call,
      rs: seq<Request>)
    requires Backs(crew, endpoint, log, at, requests) && Makes(crew, endpoint, c, rs)
    requires c == Graceful(None) ==> Sent(rs) != []
    requires ReportsAbout(crew, [c], at, rs) && (!Betrays(c) ==> Plausible(true, rs))
    ensures Backs(crew, endpoint, log + [c], at, requests + rs)
  {
    BackedNext(crew, endpoint, log, requests, c, rs);
    SentAppend(requests, rs);
    ReportsTogether(crew, log, at, requests, c, rs);
    if forall d :: d in log + [c] ==> !Betrays(d) {
      assert c in log + [c];
      assert forall d :: d in log ==> d in log + [c];
      PlausibleTogether(requests, rs);
    }
  }

  lemma EveryCallIsPossible(crew: Crew, endpoint: AddrPort, c: Call, at: KernelState)
    requires crew.Valid()
    ensures Makes(crew, endpoint, c, RequestsOf(crew, endpoint, c, at))
    ensures c == Graceful(None) ==> Sent(RequestsOf(crew, endpoint, c, at)) != []
    ensures ReportsAbout(crew, [c], at, RequestsOf(crew, endpoint, c, at))
    ensures !Betrays(c) ==> Plausible(true, RequestsOf(crew, endpoint, c, at))
  {
    match c
    case Graceful(e) =>
      UnanimousAnswer(crew, Term, e);
      if e == None {
        SomethingSent(Unanimous(crew, Term, e), 0);
      }
    case Hard(e) => UnanimousAnswer(crew, Kill, e);
    case _ =>
  }

  // Every log can be backed, and a call that succeeds sends something.
  lemma {:induction false} EveryLogIsPossible(crew: Crew, endpoint: AddrPort, log: seq<Call>, at: KernelState)
    returns (requests: seq<Request>)
    requires crew.Valid()
    ensures Backs(crew, endpoint, log, at, requests)
    decreases |log|
  {
    if log == [] {
      requests := [];
    } else {
      var init, c := log[..|log| - 1], log[|log| - 1];
      var earlier := EveryLogIsPossible(crew, endpoint, init, at);
      var rs := RequestsOf(crew, endpoint, c, at);
      EveryCallIsPossible(crew, endpoint, c, at);
      assert log == init + [c];
      BacksNext(crew, endpoint, init, at, earlier, c, rs);
      requests := earlier + rs;
    }
  }

  // The source promises that nothing was signalled when it reports a changed
  // identity.
  ghost predicate ChangedMeansUntouched(o: Options, crew: Crew, pidfd: bool) {
    forall endpoint, res, requests :: Ran(crew, endpoint, o, pidfd, res, requests) && res.outcome == Changed ==>
      Sent(requests) == []
  }

  const SOMEWHERE: AddrPort := AddrPort(V4([127, 0, 0, 1]), 3000)

  const NOBODY: KernelState := KernelState(map[], {}, {}, {})

  // Not so after a graceful stop: the process takes it, and is another later.
  lemma StoppedThenChanged(o: Options, crew: Crew)
    requires crew.Valid() && !o.force
    ensures !ChangedMeansUntouched(o, crew, false)
  {
    var alive := HeldThroughout(o, crew.lead, Ok(Alive));
    var log := alive + [Hard(Some(IdentityChanged))];
    AfterNext(o, crew.lead, alive, Hard(Some(IdentityChanged)));
    var res := Teardown(Changed, crew.lead, FromController(IdentityChanged), true, true);
    assert Accepts(o, crew.lead, log, res);
    CallDiscipline(o, crew.lead, log, res);
    var requests := EveryLogIsPossible(crew, SOMEWHERE, log, NOBODY);
    assert Ran(crew, SOMEWHERE, o, false, res, requests);
  }

  // Everybody dies but the lead, at its last place k, which has changed.
  function AllButOne(crew: Crew, k: nat): (rs: seq<Request>)
    ensures Asks(crew.pids, Kill, rs)
    ensures forall j :: 0 <= j < |rs| ==> rs[j].reply == if j == k then Some(IdentityChanged) else None
  {
    seq(|crew.pids|, j requires 0 <= j < |crew.pids| =>
      Attempt(crew.pids[j], Kill, if j == k then Some(IdentityChanged) else None))
  }

  lemma {:induction false} LastPlace(pids: seq<nat>, lead: nat) returns (k: nat)
    requires lead in pids
    ensures k < |pids| && pids[k] == lead && forall j :: k < j < |pids| ==> pids[j] != lead
  {
    if pids[|pids| - 1] == lead {
      k := |pids| - 1;
    } else {
      k := LastPlace(pids[..|pids| - 1], lead);
    }
  }

  lemma AllButOneAnswers(crew: Crew, k: nat)
    requires crew.grouped && k < |crew.pids| && crew.pids[k] == crew.lead
    requires forall j :: k < j < |crew.pids| ==> crew.pids[j] != crew.lead
    ensures Answer(crew, AllButOne(crew, k)) == Some(IdentityChanged)
  {
    var replies := Replies(crew.lead, AllButOne(crew, k));
    PrimaryReplyAt(replies, k);
    OtherReplyIsFirst(replies);
  }

  // A forced run whose kill is answered by a changed identity.
  function KilledAtOnce(crew: Crew, rs: seq<Request>): seq<Request>
    requires crew.Valid()
  {
    [Lookup(Found(crew, SOMEWHERE, Held))] + rs
  }

  function ForcedChange(crew: Crew): Teardown {
    Teardown(Changed, crew.lead, FromController(IdentityChanged), false, true)
  }

  lemma ForcedChangeAccepted(o: Options, pid: nat)
    requires o.force
    ensures Accepts(o, pid, [Probe(Held), Hard(Some(IdentityChanged))],
      Teardown(Changed, pid, FromController(IdentityChanged), false, true))
  {
    AfterNext(o, pid, [], Probe(Held));
    AfterNext(o, pid, [] + [Probe(Held)], Hard(Some(IdentityChanged)));
    assert [] + [Probe(Held)] + [Hard(Some(IdentityChanged))] == [Probe(Held), Hard(Some(IdentityChanged))];
  }

  lemma BackedTwice(crew: Crew, endpoint: AddrPort, c0: Call, rs0: seq<Request>, c1: Call, rs1: seq<Request>)
    requires Makes(crew, endpoint, c0, rs0) && Makes(crew, endpoint, c1, rs1)
    ensures Backed(crew, endpoint, [c0, c1], rs0 + rs1)
  {
    BackedNext(crew, endpoint, [], [], c0, rs0);
    assert [] + [c0] == [c0] && [] + rs0 == rs0;
    BackedNext(crew, endpoint, [c0], rs0, c1, rs1);
    assert [c0] + [c1] == [c0, c1];
  }

  lemma KilledAtOnceRuns(o: Options, crew: Crew, rs: seq<Request>)
    requires crew.Valid() && o.force && |rs| > 0 && Asks(crew.pids, Kill, rs)
    requires Answer(crew, rs) == Some(IdentityChanged)
    ensures Ran(crew, SOMEWHERE, o, false, ForcedChange(crew), KilledAtOnce(crew, rs))
    ensures Sent(KilledAtOnce(crew, rs)) == Sent(rs)
  {
    var rs0 := [Lookup(Found(crew, SOMEWHERE, Held))];
    ForcedChangeAccepted(o, crew.lead);
    BackedTwice(crew, SOMEWHERE, Probe(Held), rs0, Hard(Some(IdentityChanged)), rs);
    SentAppend(rs0, rs);
    NothingSent(rs0);
    assert [] + Sent(rs) == Sent(rs);
  }

  // Not so for a group that is killed at once: a member may die before the lead
  // turns out to be another.
  lemma OthersDiedThenChanged(o: Options, crew: Crew)
    requires crew.Valid() && o.force && |crew.pids| > 1
    ensures !ChangedMeansUntouched(o, crew, false)
  {
    var k := LastPlace(crew.pids, crew.lead);
    var rs := AllButOne(crew, k);
    AllButOneAnswers(crew, k);
    KilledAtOnceRuns(o, crew, rs);
    SomethingSent(rs, if k == 0 then 1 else 0);
  }

  // A changed identity means that nothing was signalled exactly when the
  // processes are held by pidfds, where it is never reported, or one process is
  // killed at once.
  lemma ChangedMeansUntouchedIff(o: Options, crew: Crew, pidfd: bool)
    requires crew.Valid()
    ensures ChangedMeansUntouched(o, crew, pidfd) <==> pidfd || (o.force && |crew.pids| == 1)
  {
    forall endpoint, res, requests |
      Ran(crew, endpoint, o, pidfd, res, requests) && res.outcome == Changed && (pidfd || (o.force && |crew.pids| == 1))
      ensures Sent(requests) == []
    {
      if pidfd {
        PidfdsNeverChange(crew, endpoint, o, res, requests);
      } else {
        LoneForcedChange(crew, endpoint, o, pidfd, res, requests);
      }
    }
    if !pidfd && !o.force {
      StoppedThenChanged(o, crew);
    } else if !pidfd && |crew.pids| != 1 {
      OthersDiedThenChanged(o, crew);
    }
  }

  // A forced run over the group of 7 and 8: 8 is killed, 7 has changed, and the
  // result says neither was asked to stop and the identity changed.
  lemma ForcedGroupMayBeTouched()
    ensures exists res, requests ::
      Ran(Crew(7, [8, 7], true), SOMEWHERE, Options(true, 0, 0, 0), false, res, requests)
      && res.outcome == Changed && !res.gracefulSent && Sent(requests) == [(8, Kill)]
  {
    var crew, o := Crew(7, [8, 7], true), Options(true, 0, 0, 0);
    var rs := [Attempt(8, Kill, None), Attempt(7, Kill, Some(IdentityChanged))];
    var replies := Replies(7, rs);
    PrimaryReplyAt(replies, 1);
    OtherReplyIsFirst(replies);
    KilledAtOnceRuns(o, crew, rs);
    assert rs[..1] == [Attempt(8, Kill, None)] && rs[..1][..0] == [];
    assert Sent(rs[..1]) == [(8, Kill)];
    assert Sent(rs) == [(8, Kill)];
  }
}
