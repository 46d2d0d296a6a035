// The conduct of an escalation: which requests its calls consist of, and what
// that says about the signals that were sent.
module Conduct {
  import opened Model
  import opened Machine
  import opened GroupErrors
  import opened Escalation

  // The processes behind a controller, by PID, in the order they are asked, and
  // the one that leads them. Only a group combines answers.
  datatype Crew = Crew(lead: nat, pids: seq<nat>, grouped: bool) {
    predicate Valid() {
      lead in pids && (!grouped ==> pids == [lead])
    }
  }

  predicate HeldBy(b: Binding, endpoint: AddrPort, pids: seq<nat>) {
    b.endpoint == endpoint && b.proc.Some? && b.proc.value.pid in pids
  }

  // What a lookup tells the probe.
  function Told(found: Result<seq<Binding>, int>, endpoint: AddrPort, pids: seq<nat>): ProbeReply {
    match found
    case Err(code) => ProbeFailed(code)
    case Ok(bs) => if exists j :: 0 <= j < |bs| && HeldBy(bs[j], endpoint, pids) then Held else Free
  }

  // These requests ask the processes to signal, one after the other.
  predicate Asks(pids: seq<nat>, sig: Signal, rs: seq<Request>) {
    |rs| == |pids| && forall j :: 0 <= j < |pids| ==> rs[j].Attempt? && rs[j].pid == pids[j] && rs[j].signal == sig
  }

  // How the processes of a group answered.
  function Replies(lead: nat, rs: seq<Request>): (replies: seq<MemberReply>)
    requires forall j :: 0 <= j < |rs| ==> rs[j].Attempt?
    ensures |replies| == |rs|
  {
    seq(|rs|, j requires 0 <= j < |rs| => MemberReply(rs[j].pid == lead, rs[j].reply))
  }

  // What the controller makes of the answers.
  function Answer(crew: Crew, rs: seq<Request>): Option<PinError>
    requires |rs| > 0 && forall j :: 0 <= j < |rs| ==> rs[j].Attempt?
  {
    if crew.grouped then GroupReply(Replies(crew.lead, rs)) else rs[0].reply
  }

  // The call is made of these requests, and answers what they answered.
  predicate Makes(crew: Crew, endpoint: AddrPort, c: Call, rs: seq<Request>) {
    match c
    case Probe(r) => |rs| == 1 && rs[0].Lookup? && r == Told(rs[0].found, endpoint, crew.pids)
    case Graceful(e) => Asks(crew.pids, Term, rs) && |rs| > 0 && e == Answer(crew, rs)
    case Hard(e) => Asks(crew.pids, Kill, rs) && |rs| > 0 && e == Answer(crew, rs)
    case Lifecycle(l) => |rs| == 1 && rs[0].Report? && rs[0].pid == crew.lead && rs[0].life == l
    case Sleep(d) => rs == [Nap(d)]
  }

  function Width(crew: Crew, c: Call): nat {
    if c.Graceful? || c.Hard? then |crew.pids| else 1
  }

  // The requests are those of the calls, in order, and no others.
  predicate Backed(crew: Crew, endpoint: AddrPort, log: seq<Call>, requests: seq<Request>)
    decreases |log|
  {
    if log == [] then requests == []
    else
      var c := log[|log| - 1];
      var n := |requests| - Width(crew, c);
      n >= 0 && Makes(crew, endpoint, c, requests[n..]) && Backed(crew, endpoint, log[..|log| - 1], requests[..n])
  }

  lemma BackedNext(crew: Crew, endpoint: AddrPort, log: seq<Call>, requests: seq<Request>, c: Call, rs: seq<Request>)
    requires Backed(crew, endpoint, log, requests) && Makes(crew, endpoint, c, rs)
    ensures Backed(crew, endpoint, log + [c], requests + rs)
  {
    assert (log + [c])[..|log|] == log;
    assert (requests + rs)[|requests|..] == rs && (requests + rs)[..|requests|] == requests;
  }

  // The last call and its requests.
  lemma BackedLast(crew: Crew, endpoint: AddrPort, log: seq<Call>, requests: seq<Request>)
    returns (init: seq<Call>, c: Call, earlier: seq<Request>, rs: seq<Request>)
    requires Backed(crew, endpoint, log, requests) && log != []
    ensures log == init + [c] && requests == earlier + rs
    ensures Backed(crew, endpoint, init, earlier) && Makes(crew, endpoint, c, rs)
  {
    init, c := log[..|log| - 1], log[|log| - 1];
    var n := |requests| - Width(crew, c);
    earlier, rs := requests[..n], requests[n..];
  }

  // ---- signals ----

  lemma {:induction false} NothingReceived(facts: seq<Fact>)
    requires forall n :: 0 <= n < |facts| ==> !facts[n].Delivered?
    ensures Received(facts) == []
  {
    if facts != [] {
      NothingReceived(facts[..|facts| - 1]);
    }
  }

  lemma {:induction false} ReceivedNothing(facts: seq<Fact>, n: nat)
    requires Received(facts) == [] && n < |facts|
    ensures !facts[n].Delivered?
  {
    if n < |facts| - 1 {
      ReceivedNothing(facts[..|facts| - 1], n);
    }
  }

  lemma {:induction false} NothingSent(requests: seq<Request>)
    requires forall n :: 0 <= n < |requests| ==> requests[n].Attempt? ==> requests[n].reply != None
    ensures Sent(requests) == []
  {
    if requests != [] {
      NothingSent(requests[..|requests| - 1]);
    }
  }

  lemma {:induction false} SomethingSent(requests: seq<Request>, n: nat)
    requires n < |requests| && requests[n].Attempt? && requests[n].reply == None
    ensures Sent(requests) != []
  {
    if n < |requests| - 1 {
      SomethingSent(requests[..|requests| - 1], n);
    }
  }

  // A process held by a pidfd cannot turn out to be another.
  predicate Plausible(pidfd: bool, requests: seq<Request>) {
    pidfd ==> forall n :: 0 <= n < |requests| && requests[n].Attempt? ==> requests[n].reply != Some(IdentityChanged)
  }

  // A whole run: an accepted log with this result, made of exactly these requests.
  ghost predicate Ran(crew: Crew, endpoint: AddrPort, o: Options, pidfd: bool, res: Teardown, requests: seq<Request>) {
    Plausible(pidfd, requests) && exists log :: Accepts(o, crew.lead, log, res) && Backed(crew, endpoint, log, requests)
  }

  // ---- what was asked ----

  // The requests to signal, in order.
  function Asked(requests: seq<Request>, sig: Signal): seq<Request> {
    if requests == [] then []
    else
      var init, last := requests[..|requests| - 1], requests[|requests| - 1];
      if last.Attempt? && last.signal == sig then Asked(init, sig) + [last] else Asked(init, sig)
  }

  lemma {:induction false} AskedAppend(rs: seq<Request>, more: seq<Request>, sig: Signal)
    ensures Asked(rs + more, sig) == Asked(rs, sig) + Asked(more, sig)
    decreases |more|
  {
    if more == [] {
      assert rs + more == rs;
    } else {
      AskedAppend(rs, more[..|more| - 1], sig);
      assert (rs + more)[..|rs + more| - 1] == rs + more[..|more| - 1];
    }
  }

  lemma {:induction false} AskedAll(pids: seq<nat>, asks: Signal, rs: seq<Request>, sig: Signal)
    requires Asks(pids, asks, rs)
    ensures Asked(rs, sig) == if asks == sig then rs else []
    decreases |rs|
  {
    if rs != [] {
      var n := |rs| - 1;
      AskedAll(pids[..n], asks, rs[..n], sig);
      assert rs == rs[..n] + [rs[n]];
    }
  }

  function CallOf(sig: Signal, e: Option<PinError>): Call {
    if sig == Term then Graceful(e) else Hard(e)
  }

  predicate Calls(c: Call, sig: Signal) {
    if sig == Term then c.Graceful? else c.Hard?
  }

  // The calls that ask for this signal.
  function CallsFor(log: seq<Call>, sig: Signal): seq<Call> {
    if log == [] then []
    else
      var init, c := log[..|log| - 1], log[|log| - 1];
      if Calls(c, sig) then CallsFor(init, sig) + [c] else CallsFor(init, sig)
  }

  // Without such a call nobody is asked; with one, everybody is, and it answers
  // what they answered.
  ghost predicate AskedBy(crew: Crew, calls: seq<Call>, asked: seq<Request>, sig: Signal) {
    if calls == [] then asked == []
    else if |calls| == 1 then Asks(crew.pids, sig, asked) && |asked| > 0 && calls == [CallOf(sig, Answer(crew, asked))]
    else true
  }

  lemma CallsForSnoc(init: seq<Call>, c: Call, sig: Signal)
    ensures CallsFor(init + [c], sig) == if Calls(c, sig) then CallsFor(init, sig) + [c] else CallsFor(init, sig)
  {
    assert (init + [c])[..|init|] == init;
  }

  lemma AskedByNext(crew: Crew, calls: seq<Call>, asked: seq<Request>, c: Call, rs: seq<Request>, sig: Signal)
    requires AskedBy(crew, calls, asked, sig)
    requires Calls(c, sig) ==> Asks(crew.pids, sig, rs) && |rs| > 0 && c == CallOf(sig, Answer(crew, rs))
    ensures Calls(c, sig) ==> AskedBy(crew, calls + [c], asked + rs, sig)
  {
    if calls == [] {
      assert asked + rs == rs && calls + [c] == [c];
    }
  }

  lemma AskedInCall(crew: Crew, endpoint: AddrPort, c: Call, rs: seq<Request>, sig: Signal)
    requires Makes(crew, endpoint, c, rs)
    ensures Asked(rs, sig) == if Calls(c, sig) then rs else []
    ensures Calls(c, sig) ==> Asks(crew.pids, sig, rs) && |rs| > 0 && c == CallOf(sig, Answer(crew, rs))
  {
    match c
    case Graceful(_) => AskedAll(crew.pids, Term, rs, sig);
    case Hard(_) => AskedAll(crew.pids, Kill, rs, sig);
    case _ =>
      assert rs[..0] == [];
  }

  lemma {:induction false} AskedFollowsCalls(crew: Crew, endpoint: AddrPort, log: seq<Call>, requests: seq<Request>,
      sig: Signal)
    requires Backed(crew, endpoint, log, requests)
    ensures AskedBy(crew, CallsFor(log, sig), Asked(requests, sig), sig)
    decreases |log|
  {
    if log != [] {
      var init, c, earlier, rs := BackedLast(crew, endpoint, log, requests);
      AskedFollowsCalls(crew, endpoint, init, earlier, sig);
      AskedAppend(earlier, rs, sig);
      AskedInCall(crew, endpoint, c, rs, sig);
      CallsForSnoc(init, c, sig);
      AskedByNext(crew, CallsFor(init, sig), Asked(earlier, sig), c, rs, sig);
      if !Calls(c, sig) {
        assert Asked(earlier, sig) + [] == Asked(earlier, sig);
      }
    }
  }

  lemma {:induction false} HardsAreCalls(log: seq<Call>)
    ensures |CallsFor(log, Kill)| == Hards(log)
  {
    if log != [] {
      HardsAreCalls(log[..|log| - 1]);
    }
  }

  lemma {:induction false} GracefulAtOne(log: seq<Call>)
    requires forall i :: 0 <= i < |log| && log[i].Graceful? ==> i == 1
    ensures CallsFor(log, Term) == if |log| > 1 && log[1].Graceful? then [log[1]] else []
  {
    if log != [] {
      GracefulAtOne(log[..|log| - 1]);
      if |log| == 2 {
        assert CallsFor(log[..1], Term) == [];
      }
    }
  }

  // Every process is asked to stop once or not at all, and to die once or not at
  // all, each time all of them in order; and the result records which.
  lemma EverybodyIsAskedOnce(crew: Crew, endpoint: AddrPort, o: Options, pidfd: bool, res: Teardown,
      requests: seq<Request>)
    requires Ran(crew, endpoint, o, pidfd, res, requests) && crew.Valid()
    ensures Asked(requests, Term) == [] || (Asks(crew.pids, Term, Asked(requests, Term)) && !o.force)
    ensures Asked(requests, Kill) == [] || Asks(crew.pids, Kill, Asked(requests, Kill))
    ensures res.usedHardKill <==> Asked(requests, Kill) != []
    ensures res.gracefulSent <==> Asked(requests, Term) != [] && Answer(crew, Asked(requests, Term)) == None
  {
    var log: seq<Call> :| Accepts(o, crew.lead, log, res) && Backed(crew, endpoint, log, requests);
    CallDiscipline(o, crew.lead, log, res);
    AskedFollowsCalls(crew, endpoint, log, requests, Term);
    AskedFollowsCalls(crew, endpoint, log, requests, Kill);
    HardsAreCalls(log);
    GracefulAtOne(log);
  }

  // ---- when it was asked ----

  predicate HeldSoFar(crew: Crew, endpoint: AddrPort, requests: seq<Request>) {
    forall j :: 0 <= j < |requests| && requests[j].Lookup? ==> Told(requests[j].found, endpoint, crew.pids) == Held
  }

  predicate NoZombieSoFar(requests: seq<Request>) {
    forall j :: 0 <= j < |requests| && requests[j].Report? ==> requests[j].life != Ok(Zombie)
  }

  lemma SoFarInCall(crew: Crew, endpoint: AddrPort, c: Call, rs: seq<Request>)
    requires Makes(crew, endpoint, c, rs)
    ensures HeldSoFar(crew, endpoint, rs) <==> (c.Probe? ==> c.probe == Held)
    ensures NoZombieSoFar(rs) <==> (c.Lifecycle? ==> c.life != Ok(Zombie))
  {
    match c
    case Probe(_) => assert rs[0].Lookup?;
    case Lifecycle(l) => assert rs[0].Report?;
    case Sleep(d) => assert rs[0] == Nap(d);
    case _ =>
  }

  lemma SoFarAppend(crew: Crew, endpoint: AddrPort, earlier: seq<Request>, rs: seq<Request>)
    ensures HeldSoFar(crew, endpoint, earlier + rs)
      <==> HeldSoFar(crew, endpoint, earlier) && HeldSoFar(crew, endpoint, rs)
    ensures NoZombieSoFar(earlier + rs) <==> NoZombieSoFar(earlier) && NoZombieSoFar(rs)
  {
    assert forall j :: 0 <= j < |earlier| ==> (earlier + rs)[j] == earlier[j];
    assert forall j :: 0 <= j < |rs| ==> (earlier + rs)[|earlier| + j] == rs[j];
  }

  lemma {:induction false} HeldSoFarIff(crew: Crew, endpoint: AddrPort, log: seq<Call>, requests: seq<Request>)
    requires Backed(crew, endpoint, log, requests)
    ensures HeldSoFar(crew, endpoint, requests) <==> AllHeld(log)
    ensures NoZombieSoFar(requests) <==> NoZombie(log)
    decreases |log|
  {
    if log != [] {
      var init, c, earlier, rs := BackedLast(crew, endpoint, log, requests);
      HeldSoFarIff(crew, endpoint, init, earlier);
      Measures(init, c);
      SoFarAppend(crew, endpoint, earlier, rs);
      SoFarInCall(crew, endpoint, c, rs);
    }
  }

  lemma PrefixSlices(requests: seq<Request>, m: nat, n: nat, end: nat)
    requires n <= end <= m <= |requests|
    ensures requests[..m][..n] == requests[..n] && requests[..m][n..end] == requests[n..end]
  {
  }

  // Request i belongs to the requests rs of call k, which begin at n; those before
  // them are those of the calls before it.
  lemma {:induction false} RequestBelongs(crew: Crew, endpoint: AddrPort, log: seq<Call>, requests: seq<Request>,
      i: nat)
    returns (k: nat, n: nat, rs: seq<Request>)
    requires Backed(crew, endpoint, log, requests) && i < |requests|
    ensures k < |log| && n <= i < n + |rs| <= |requests| && rs == requests[n..n + |rs|] && rs[i - n] == requests[i]
    ensures Backed(crew, endpoint, log[..k], requests[..n]) && Makes(crew, endpoint, log[k], rs)
    decreases |log|
  {
    var last := |log| - 1;
    var m := |requests| - Width(crew, log[last]);
    if i >= m {
      k, n, rs := last, m, requests[m..];
    } else {
      k, n, rs := RequestBelongs(crew, endpoint, log[..last], requests[..m], i);
      assert log[..last][..k] == log[..k];
      PrefixSlices(requests, m, n, n + |rs|);
    }
  }

  lemma HeldFurther(crew: Crew, endpoint: AddrPort, requests: seq<Request>, n: nat, i: nat, rs: seq<Request>,
      killing: bool)
    requires n <= i <= n + |rs| <= |requests| && rs == requests[n..n + |rs|]
    requires forall j :: 0 <= j < |rs| ==> rs[j].Attempt?
    requires HeldSoFar(crew, endpoint, requests[..n]) && (killing ==> NoZombieSoFar(requests[..n]))
    ensures HeldSoFar(crew, endpoint, requests[..i]) && (killing ==> NoZombieSoFar(requests[..i]))
  {
    assert requests[..i] == requests[..n] + rs[..i - n];
    SoFarAppend(crew, endpoint, requests[..n], rs[..i - n]);
  }

  lemma HeldUntil(crew: Crew, endpoint: AddrPort, o: Options, log: seq<Call>, res: Teardown, requests: seq<Request>,
      i: nat)
    requires Accepts(o, crew.lead, log, res) && Backed(crew, endpoint, log, requests)
    requires i < |requests| && requests[i].Attempt?
    ensures HeldSoFar(crew, endpoint, requests[..i]) && (requests[i].signal == Kill ==> NoZombieSoFar(requests[..i]))
  {
    var k, n, rs := RequestBelongs(crew, endpoint, log, requests, i);
    SignalsOnlyWhileHeld(o, crew.lead, log, k);
    HeldSoFarIff(crew, endpoint, log[..k], requests[..n]);
    HeldFurther(crew, endpoint, requests, n, i, rs, log[k].Hard?);
  }

  lemma {:induction false} FirstIsProbe(crew: Crew, endpoint: AddrPort, log: seq<Call>, requests: seq<Request>)
    requires Backed(crew, endpoint, log, requests) && log != [] && log[0].Probe?
    ensures |requests| > 0 && requests[0].Lookup?
    decreases |log|
  {
    if |log| > 1 {
      var init, c, earlier, rs := BackedLast(crew, endpoint, log, requests);
      FirstIsProbe(crew, endpoint, init, earlier);
    }
  }

  // An attempt before another belongs to the same call or an earlier one.
  lemma EarlierCall(crew: Crew, endpoint: AddrPort, log: seq<Call>, requests: seq<Request>, j: nat, i: nat)
    requires Backed(crew, endpoint, log, requests) && j < i < |requests|
    requires requests[i].Attempt? && requests[i].signal == Term && requests[j].Attempt?
    requires forall a, b :: 0 <= a < |log| && 0 <= b < |log| && log[a].Graceful? && log[b].Hard? ==> a < b
    ensures requests[j].signal == Term
  {
    var k, n, rs := RequestBelongs(crew, endpoint, log, requests, i);
    if j >= n {
      assert rs[j - n] == requests[j];
    } else {
      var k', n', rs' := RequestBelongs(crew, endpoint, log[..k], requests[..n], j);
      assert log[..k][k'] == log[k'];
    }
  }

  // Nobody is asked to signal before a lookup said held, or after one said
  // anything else; nobody is asked to die after a zombie was reported, and
  // nobody to stop after somebody was asked to die.
  lemma AskedOnlyWhileHeld(crew: Crew, endpoint: AddrPort, o: Options, pidfd: bool, res: Teardown,
      requests: seq<Request>, i: nat)
    requires Ran(crew, endpoint, o, pidfd, res, requests)
    requires i < |requests| && requests[i].Attempt?
    ensures requests[0].Lookup? && HeldSoFar(crew, endpoint, requests[..i])
    ensures requests[i].signal == Kill ==> NoZombieSoFar(requests[..i])
    ensures requests[i].signal == Term ==> forall j :: 0 <= j < i && requests[j].Attempt? ==> requests[j].signal == Term
  {
    var log: seq<Call> :| Accepts(o, crew.lead, log, res) && Backed(crew, endpoint, log, requests);
    CallDiscipline(o, crew.lead, log, res);
    FirstIsProbe(crew, endpoint, log, requests);
    HeldUntil(crew, endpoint, o, log, res, requests, i);
    if requests[i].signal == Term {
      forall j | 0 <= j < i && requests[j].Attempt?
        ensures requests[j].signal == Term
      {
        EarlierCall(crew, endpoint, log, requests, j, i);
      }
    }
  }

  lemma {:induction false} HardCounts(log: seq<Call>, a: nat)
    requires a < |log| && log[a].Hard?
    ensures Hards(log) > 0
  {
    if a < |log| - 1 {
      HardCounts(log[..|log| - 1], a);
    }
  }

  lemma {:induction false} HardOnce(log: seq<Call>, a: nat, b: nat)
    requires Hards(log) <= 1 && a < b < |log| && log[b].Hard?
    ensures !log[a].Hard?
  {
    if b < |log| - 1 {
      HardOnce(log[..|log| - 1], a, b);
    } else if log[a].Hard? {
      HardCounts(log[..b], a);
    }
  }

  lemma InTheSameCall(crew: Crew, endpoint: AddrPort, log: seq<Call>, requests: seq<Request>, i: nat, j: nat, k: nat,
      n: nat, rs: seq<Request>)
    requires i <= j < |requests| && k < |log| && n <= j < n + |rs| && rs[j - n] == requests[j]
    requires Backed(crew, endpoint, log[..k], requests[..n]) && Makes(crew, endpoint, log[k], rs)
    requires requests[i].Attempt? && requests[j].Attempt? && requests[i].signal == requests[j].signal
    requires Hards(log) <= 1 && forall a :: 0 <= a < |log| && log[a].Graceful? ==> a == 1
    ensures n <= i
  {
    if i < n {
      var k', n', rs' := RequestBelongs(crew, endpoint, log[..k], requests[..n], i);
      assert log[..k][k'] == log[k'];
      if log[k].Hard? {
        HardOnce(log, k', k);
      }
    }
  }

  // All attempts with one signal are made in one call, whose requests begin at n:
  // they ask the processes in order.
  lemma OneBlock(crew: Crew, endpoint: AddrPort, o: Options, pidfd: bool, res: Teardown, requests: seq<Request>, i: nat,
      j: nat)
    returns (n: nat)
    requires Ran(crew, endpoint, o, pidfd, res, requests) && i <= j < |requests|
    requires requests[i].Attempt? && requests[j].Attempt? && requests[i].signal == requests[j].signal
    ensures n <= i && j - n < |crew.pids|
    ensures requests[i].pid == crew.pids[i - n] && requests[j].pid == crew.pids[j - n]
  {
    var log: seq<Call> :| Accepts(o, crew.lead, log, res) && Backed(crew, endpoint, log, requests);
    CallDiscipline(o, crew.lead, log, res);
    var k, rs;
    k, n, rs := RequestBelongs(crew, endpoint, log, requests, j);
    InTheSameCall(crew, endpoint, log, requests, i, j, k, n, rs);
    assert rs[i - n] == requests[i] && rs[j - n] == requests[j];
  }

  // Two attempts with one signal come in the order in which their processes stand.
  lemma AskedInOrder(crew: Crew, endpoint: AddrPort, o: Options, pidfd: bool, res: Teardown, requests: seq<Request>,
      i: nat, j: nat)
    returns (a: nat, b: nat)
    requires Ran(crew, endpoint, o, pidfd, res, requests) && i < |requests| && j < |requests|
    requires requests[i].Attempt? && requests[j].Attempt? && requests[i].signal == requests[j].signal
    ensures a < |crew.pids| && requests[i].pid == crew.pids[a]
    ensures b < |crew.pids| && requests[j].pid == crew.pids[b]
    ensures i < j <==> a < b
  {
    var n := OneBlock(crew, endpoint, o, pidfd, res, requests, if i < j then i else j, if i < j then j else i);
    a, b := i - n, j - n;
  }
}
