// What one portpin process can ask of the kernel. Every call lets the kernel
// run on first, for any number of events, and then acts at one instant. Two
// ghost journals record what happened, in order: the facts, each with the state
// of the kernel in which it came about, and the requests portpin made.
module Machine {
  import opened Model
  import opened Kernel

  datatype Signal = Term | Kill

  datatype Errno = ESRCH | ENOSYS | EPERM | EACCES | OtherErrno(code: int)

  datatype StatError = NotExist | Unreadable(code: int)

  datatype Fact =
    | Began(at: KernelState)                                       // a teardown began
    | Opened(fd: int, who: Instance, at: KernelState)
    | Closed(fd: int, at: KernelState)
    | Seen(who: Instance, endpoint: AddrPort, at: KernelState)
    | Delivered(who: Instance, signal: Signal, at: KernelState)

  // What portpin asked for, and the answer.
  datatype Request =
    | Lookup(found: Result<seq<Binding>, int>)                          // the resolver
    | Attempt(pid: nat, signal: Signal, reply: Option<PinError>)        // a controller, to signal
    | Report(pid: nat, life: Result<Lifecycle, int>, at: KernelState)   // the state letter of a PID
    | Nap(duration: int)

  // A system call for a pin or a signal, and what it returned.
  datatype SysCall =
    | StatCall(pid: nat, start: Result<nat, StatError>)
    | OpenCall(pid: nat, got: Result<int, Errno>)
    | PidfdCall(fd: int, signal: Signal, refusal: Option<Errno>)
    | KillCall(pid: nat, signal: Signal, refusal: Option<Errno>)

  // The fact holds in the state it is dated with.
  ghost predicate Holds(f: Fact) {
    match f
    case Began(_) => true
    case Opened(_, who, at) => Present(at, who)
    case Closed(_, _) => true
    case Seen(who, endpoint, at) => (who, endpoint) in at.sockets
    case Delivered(who, _, at) => Present(at, who)
  }

  // Every fact holds at its date, and the dates follow one another up to now.
  ghost predicate Chronicle(facts: seq<Fact>, now: KernelState) {
    facts == [] ||
    var last := facts[|facts| - 1];
    Holds(last) && Evolves(last.at, now) && Chronicle(facts[..|facts| - 1], last.at)
  }

  lemma ChronicleLater(facts: seq<Fact>, now: KernelState, later: KernelState)
    requires Chronicle(facts, now) && Evolves(now, later)
    ensures Chronicle(facts, later)
  {
    if facts != [] {
      EvolvesOn(facts[|facts| - 1].at, now, later);
    }
  }

  lemma ChronicleNext(facts: seq<Fact>, f: Fact)
    requires Chronicle(facts, f.at) && Holds(f)
    ensures Chronicle(facts + [f], f.at)
  {
    assert (facts + [f])[..|facts|] == facts;
    EvolvesNow(f.at);
  }

  // Each fact of a chronicle holds, and the kernel evolved from each to the next
  // and to the present.
  lemma {:induction false} ChronicleOrder(facts: seq<Fact>, now: KernelState, i: nat, j: nat)
    requires Chronicle(facts, now) && i <= j < |facts|
    ensures Holds(facts[i]) && Holds(facts[j])
    ensures Evolves(facts[i].at, facts[j].at) && Evolves(facts[j].at, now)
    decreases |facts|
  {
    var last := |facts| - 1;
    if i == last {
      EvolvesNow(facts[i].at);
    } else if j == last {
      ChronicleOrder(facts[..last], facts[last].at, i, i);
    } else {
      ChronicleOrder(facts[..last], facts[last].at, i, j);
      EvolvesOn(facts[j].at, facts[last].at, now);
    }
  }

  predicate Taken(r: Request) {
    r.Attempt? && r.reply == None
  }

  ghost predicate Right(r: Request) {
    r.Report? ==>
      && WellFormed(r.at)
      && (r.life == Ok(Zombie) ==> r.pid in r.at.table && r.at.table[r.pid] in r.at.zombies)
      && (r.life == Ok(Gone) ==> r.pid !in r.at.table)
  }

  // Every report is right about the state it is dated with.
  ghost predicate Truthful(requests: seq<Request>) {
    forall n {:trigger Right(requests[n])} :: 0 <= n < |requests| ==> Right(requests[n])
  }

  // The signals the processes took.
  function Sent(requests: seq<Request>): seq<(nat, Signal)> {
    if requests == [] then []
    else
      var init, last := requests[..|requests| - 1], requests[|requests| - 1];
      if Taken(last) then Sent(init) + [(last.pid, last.signal)] else Sent(init)
  }

  // The signals the kernel delivered.
  function Received(facts: seq<Fact>): seq<(nat, Signal)> {
    if facts == [] then []
    else
      var init, last := facts[..|facts| - 1], facts[|facts| - 1];
      if last.Delivered? then Received(init) + [(last.who.pid, last.signal)] else Received(init)
  }

  lemma SentSnoc(rs: seq<Request>, r: Request)
    ensures Sent(rs + [r]) == if Taken(r) then Sent(rs) + [(r.pid, r.signal)] else Sent(rs)
  {
    assert (rs + [r])[..|rs|] == rs;
  }

  lemma ReceivedSnoc(facts: seq<Fact>, f: Fact)
    ensures Received(facts + [f]) == if f.Delivered? then Received(facts) + [(f.who.pid, f.signal)] else Received(facts)
  {
    assert (facts + [f])[..|facts|] == facts;
  }

  lemma {:induction false} SentAppend(rs: seq<Request>, more: seq<Request>)
    ensures Sent(rs + more) == Sent(rs) + Sent(more)
    decreases |more|
  {
    if more == [] {
      assert rs + more == rs;
    } else {
      var init, last := more[..|more| - 1], more[|more| - 1];
      SentAppend(rs, init);
      SentSnoc(rs + init, last);
      assert rs + more == rs + init + [last];
    }
  }

  lemma {:induction false} ReceivedAppend(facts: seq<Fact>, more: seq<Fact>)
    ensures Received(facts + more) == Received(facts) + Received(more)
    decreases |more|
  {
    if more == [] {
      assert facts + more == facts;
    } else {
      var init, last := more[..|more| - 1], more[|more| - 1];
      ReceivedAppend(facts, init);
      ReceivedSnoc(facts + init, last);
      assert facts + more == facts + init + [last];
    }
  }

  // The signals delivered and taken since an earlier point agree, if they agreed
  // there and agree now.
  lemma TallySince(facts: seq<Fact>, requests: seq<Request>, facts': seq<Fact>, requests': seq<Request>)
    requires facts <= facts' && requests <= requests'
    requires Received(facts) == Sent(requests) && Received(facts') == Sent(requests')
    ensures Received(facts'[|facts|..]) == Sent(requests'[|requests|..])
  {
    var f, r := facts'[|facts|..], requests'[|requests|..];
    assert facts' == facts + f && requests' == requests + r;
    ReceivedAppend(facts, f);
    SentAppend(requests, r);
    var n := |Received(facts)|;
    assert Received(f) == Received(facts')[n..] && Sent(r) == Sent(requests')[n..];
  }

  // A descriptor number that is not in use.
  method FreshFd(taken: set<int>) returns (fd: int)
    ensures fd >= 0 && fd !in taken
  {
    fd := 0;
    ghost var above := taken;
    while fd in taken
      invariant fd >= 0 && above <= taken
      invariant forall x :: x in taken && x >= fd ==> x in above
      decreases above
    {
      above := above - {fd};
      fd := fd + 1;
    }
  }

  // Only sightings, each of a socket that was held at an instant in between.
  ghost predicate SeenBetween(k: KernelState, seen: seq<Fact>, k': KernelState) {
    forall n :: 0 <= n < |seen| ==>
      && seen[n].Seen? && (seen[n].who, seen[n].endpoint) in seen[n].at.sockets
      && Evolves(k, seen[n].at) && Evolves(seen[n].at, k')
  }

  lemma SeenLater(k: KernelState, seen: seq<Fact>, k': KernelState, k'': KernelState)
    requires SeenBetween(k, seen, k') && Evolves(k', k'')
    ensures SeenBetween(k, seen, k'')
  {
    forall n | 0 <= n < |seen|
      ensures Evolves(seen[n].at, k'')
    {
      EvolvesOn(seen[n].at, k', k'');
    }
  }

  lemma SeenNow(k: KernelState, seen: seq<Fact>, k': KernelState, f: Fact)
    requires SeenBetween(k, seen, k') && Evolves(k, k')
    requires f.Seen? && f.at == k' && (f.who, f.endpoint) in k'.sockets
    ensures SeenBetween(k, seen + [f], k')
  {
    EvolvesNow(k');
  }

  // Fact n shows the owner of this binding.
  predicate ShownAt(b: Binding, seen: seq<Fact>, n: nat) {
    n < |seen| && seen[n].Seen? && b.proc.Some? && seen[n].who.pid == b.proc.value.pid && seen[n].endpoint == b.endpoint
  }

  // Every owner reported was seen.
  ghost predicate Shown(found: seq<Binding>, seen: seq<Fact>) {
    forall b :: b in found && b.proc.Some? ==> exists n :: ShownAt(b, seen, n)
  }

  lemma ShownNow(found: seq<Binding>, seen: seq<Fact>, b: Binding, f: Fact)
    requires Shown(found, seen) && ShownAt(b, [f], 0)
    ensures Shown(found + [b], seen + [f])
  {
    forall c | c in found + [b] && c.proc.Some?
      ensures exists n :: ShownAt(c, seen + [f], n)
    {
      if c in found {
        var n :| ShownAt(c, seen, n);
        assert ShownAt(c, seen + [f], n);
      } else {
        assert ShownAt(c, seen + [f], |seen|);
      }
    }
  }

  // Whoever was seen under a PID, every other instance of that PID known at the
  // start of the call has been reaped.
  ghost predicate Superseded(known: set<Instance>, seen: seq<Fact>, k: KernelState) {
    forall n, i :: 0 <= n < |seen| && seen[n].Seen? && i in known && i.pid == seen[n].who.pid && i != seen[n].who ==>
      !Present(k, i)
  }

  // Whoever was seen in between supersedes every other instance of its PID.
  lemma SeenSupersede(k: KernelState, seen: seq<Fact>, k': KernelState)
    requires WellFormed(k) && SeenBetween(k, seen, k')
    ensures Superseded(k.used, seen, k')
  {
    forall n, i | 0 <= n < |seen| && i in k.used && i.pid == seen[n].who.pid && i != seen[n].who
      ensures !Present(k', i)
    {
      EvolutionKeeps(k, seen[n].at);
      EvolutionKeeps(seen[n].at, k');
      assert Present(seen[n].at, seen[n].who);
    }
  }

  // What a lookup that began at k has seen and found by k'.
  ghost predicate Looked(k: KernelState, seen: seq<Fact>, found: seq<Binding>, k': KernelState) {
    Evolves(k, k') && SeenBetween(k, seen, k') && Shown(found, seen)
  }

  lemma LookedLater(k: KernelState, seen: seq<Fact>, found: seq<Binding>, k': KernelState, k'': KernelState)
    requires Looked(k, seen, found, k') && Evolves(k', k'')
    ensures Looked(k, seen, found, k'')
  {
    EvolvesOn(k, k', k'');
    SeenLater(k, seen, k', k'');
  }

  lemma LookedNext(k: KernelState, seen: seq<Fact>, found: seq<Binding>, k': KernelState, b: Binding, f: Fact)
    requires Looked(k, seen, found, k') && f.Seen? && f.at == k' && (f.who, f.endpoint) in k'.sockets
    requires ShownAt(b, [f], 0)
    ensures Looked(k, seen + [f], found + [b], k')
  {
    SeenNow(k, seen, k', f);
    ShownNow(found, seen, b, f);
  }

  class Machine {
    var k: KernelState
    var fds: map<int, Instance>             // portpin's open pidfds
    const hasPidfd: bool                    // false before Linux 5.3

    ghost var facts: seq<Fact>              // what the kernel did for portpin
    ghost var requests: seq<Request>        // what portpin asked for
    ghost var calls: seq<SysCall>           // the system calls of pins and signals
    ghost var pins: seq<Option<PinError>>   // how each pin call ended
    ghost var handedOut: set<object>        // every controller a pin call has returned

    ghost predicate Sane()
      reads this
    {
      WellFormed(k) && (forall fd :: fd in fds ==> fd >= 0 && fds[fd] in k.used) && Chronicle(facts, k)
    }

    // The signals the kernel delivered are those that the attempts report taken,
    // and the reports are right.
    ghost predicate Valid()
      reads this
    {
      Sane() && Received(facts) == Sent(requests) && Truthful(requests)
    }

    // Any number of kernel events.
    method Interfere()
      requires Sane()
      modifies this`k
      ensures Sane() && Evolves(old(k), k) && Later(old(k), k)
    {
      ghost var events: seq<KernelEvent> := [];
      var n: int := *;
      while n > 0
        invariant WellFormed(k) && Reachable(old(k), events, k) && old(k).used <= k.used
      {
        var ev: KernelEvent := *;
        if Enabled(k, ev) {
          EventKeeps(k, ev);
          ReachableSnoc(old(k), events, k, ev);
          events := events + [ev];
          k := Apply(k, ev);
        }
        n := n - 1;
      }
      EvolutionKeeps(old(k), k);
      ChronicleLater(facts, old(k), k);
    }

    // A fact that has just come about enters the journal.
    ghost method Note(f: Fact)
      requires Sane() && f.at == k && Holds(f)
      modifies this`facts
      ensures Sane() && facts == old(facts) + [f]
      ensures Received(facts) ==
        if f.Delivered? then Received(old(facts)) + [(f.who.pid, f.signal)] else Received(old(facts))
    {
      ChronicleNext(facts, f);
      ReceivedSnoc(facts, f);
      facts := facts + [f];
    }

    // A request and its answer enter the journal.
    ghost method Enter(r: Request)
      requires Sane() && Truthful(requests) && Right(r)
      modifies this`requests
      ensures Sane() && Truthful(requests) && requests == old(requests) + [r]
      ensures Sent(requests) == if Taken(r) then Sent(old(requests)) + [(r.pid, r.signal)] else Sent(old(requests))
    {
      SentSnoc(requests, r);
      requests := requests + [r];
    }

    // portpin notes that a teardown begins.
    ghost method Begin()
      requires Valid()
      modifies this`facts
      ensures Valid() && facts == old(facts) + [Began(k)]
    {
      Note(Began(k));
    }

    // portpin sleeps.
    method Sleep(d: int)
      requires Valid()
      modifies this`k, this`requests
      ensures Valid() && Later(old(k), k) && requests == old(requests) + [Nap(d)]
    {
      Interfere();
      Enter(Nap(d));
    }

    // The start time in /proc/<pid>/stat.
    method ReadStartTime(pid: nat) returns (r: Result<nat, StatError>)
      requires Valid()
      modifies this`k, this`calls
      ensures Valid() && Later(old(k), k) && Evolves(old(k), k) && calls == old(calls) + [StatCall(pid, r)]
      ensures r.Ok? ==> pid in k.table && k.table[pid].start == r.value
      ensures r == Err(NotExist) ==> pid !in k.table
    {
      Interfere();
      var unreadable: bool := *;
      if unreadable {
        var code: int := *;
        r := Err(Unreadable(code));
      } else if pid !in k.table {
        r := Err(NotExist);
      } else {
        r := Ok(k.table[pid].start);
      }
      calls := calls + [StatCall(pid, r)];
    }

    method PidfdOpen(pid: nat) returns (r: Result<int, Errno>)
      requires Valid()
      modifies this`k, this`fds, this`facts, this`calls
      ensures Valid() && Later(old(k), k) && calls == old(calls) + [OpenCall(pid, r)]
      ensures r.Err? ==> fds == old(fds) && facts == old(facts)
      ensures r == Err(ESRCH) ==> pid !in k.table
      ensures r == Err(ENOSYS) <==> !hasPidfd
      ensures r.Ok? ==> pid in k.table && r.value >= 0 && r.value !in old(fds)
      ensures r.Ok? ==>
        fds == old(fds)[r.value := k.table[pid]] && facts == old(facts) + [Opened(r.value, k.table[pid], k)]
    {
      Interfere();
      var refusal: Errno := *;
      if !hasPidfd {
        r := Err(ENOSYS);
      } else if refusal != ESRCH && refusal != ENOSYS {
        r := Err(refusal);
      } else if pid !in k.table {
        r := Err(ESRCH);
      } else {
        var fd := FreshFd(fds.Keys);
        fds := fds[fd := k.table[pid]];
        Note(Opened(fd, k.table[pid], k));
        r := Ok(fd);
      }
      calls := calls + [OpenCall(pid, r)];
    }

    // Closing a descriptor portpin does not hold is a fault of the caller.
    method PidfdClose(fd: int)
      requires Valid() && fd in fds
      modifies this`fds, this`facts
      ensures Valid() && fds == old(fds) - {fd} && facts == old(facts) + [Closed(fd, k)]
    {
      fds := fds - {fd};
      Note(Closed(fd, k));
    }

    // A pidfd names an instance. Once that instance is reaped the call fails,
    // whoever holds the PID by then.
    method PidfdSendSignal(fd: int, sig: Signal) returns (e: Option<Errno>)
      requires Valid() && fd in fds
      modifies this`k, this`facts, this`calls
      ensures Sane() && Later(old(k), k) && calls == old(calls) + [PidfdCall(fd, sig, e)]
      ensures Received(facts) == if e == None then Sent(requests) + [(fds[fd].pid, sig)] else Sent(requests)
      ensures e.Some? ==> facts == old(facts)
      ensures e == Some(ESRCH) ==> !Present(k, fds[fd])
      ensures e == None ==> Present(k, fds[fd]) && facts == old(facts) + [Delivered(fds[fd], sig, k)]
    {
      Interfere();
      var refusal: Errno := *;
      if refusal != ESRCH {
        e := Some(refusal);
      } else if !Present(k, fds[fd]) {
        e := Some(ESRCH);
      } else {
        Note(Delivered(fds[fd], sig, k));
        e := None;
      }
      calls := calls + [PidfdCall(fd, sig, e)];
    }

    // A raw kill reaches whoever holds the PID at that instant.
    method RawKill(pid: nat, sig: Signal) returns (e: Option<Errno>)
      requires Valid()
      modifies this`k, this`facts, this`calls
      ensures Sane() && Later(old(k), k) && Evolves(old(k), k) && calls == old(calls) + [KillCall(pid, sig, e)]
      ensures Received(facts) == if e == None then Sent(requests) + [(pid, sig)] else Sent(requests)
      ensures e.Some? ==> facts == old(facts)
      ensures e == Some(ESRCH) ==> pid !in k.table
      ensures e == None ==> pid in k.table && facts == old(facts) + [Delivered(k.table[pid], sig, k)]
    {
      Interfere();
      var refusal: Errno := *;
      if refusal != ESRCH {
        e := Some(refusal);
      } else if pid !in k.table {
        e := Some(ESRCH);
      } else {
        Note(Delivered(k.table[pid], sig, k));
        e := None;
      }
      calls := calls + [KillCall(pid, sig, e)];
    }

    // The state letter in /proc/<pid>/stat, of whoever holds the PID.
    method ReadLifecycle(pid: nat) returns (r: Result<Lifecycle, int>)
      requires Valid()
      modifies this`k, this`requests
      ensures Valid() && Later(old(k), k) && requests == old(requests) + [Report(pid, r, k)]
      ensures r == Ok(Zombie) ==> pid in k.table && k.table[pid] in k.zombies
      ensures r == Ok(Zombie) ==> NoSocketUnder(k, pid)
      ensures r == Ok(Gone) ==> pid !in k.table
    {
      Interfere();
      var unreadable: bool := *;
      if unreadable {
        var code: int := *;
        r := Err(code);
      } else if pid !in k.table {
        r := Ok(Gone);
      } else {
        r := Ok(if k.table[pid] in k.zombies then Zombie else Alive);
      }
      if r == Ok(Zombie) {
        ZombieHoldsNothing(k, pid);
      }
      Enter(Report(pid, r, k));
    }

    // The platform resolver. It may fail, miss sockets and take any time, but an
    // owner it reports held that endpoint at some instant during the call.
    method Resolve() returns (r: Result<seq<Binding>, int>)
      requires Valid()
      modifies this`k, this`facts, this`requests
      ensures Valid() && Later(old(k), k) && requests == old(requests) + [Lookup(r)]
      ensures old(facts) <= facts && SeenBetween(old(k), facts[|old(facts)|..], k)
      ensures r.Ok? ==> Shown(r.value, facts[|old(facts)|..])
      ensures Superseded(old(k).used, facts[|old(facts)|..], k)
    {
      var found: seq<Binding> := [];
      ghost var seen: seq<Fact> := [];
      EvolvesNow(k);
      var n: int := *;
      while n > 0
        invariant Valid() && requests == old(requests)
        invariant facts == old(facts) + seen && Looked(old(k), seen, found, k)
      {
        ghost var before := k;
        Interfere();
        LookedLater(old(k), seen, found, before, k);
        var b: Binding := *;
        var s: (Instance, AddrPort) := *;
        if s in k.sockets {
          ghost var f := Seen(s.0, s.1, k);
          var meta: ProcMeta := *;
          b := b.(endpoint := s.1, proc := Some(meta.(pid := s.0.pid)));
          LookedNext(old(k), seen, found, k, b, f);
          Note(f);
          seen := seen + [f];
        } else {
          b := b.(proc := None);
        }
        found := found + [b];
        n := n - 1;
      }
      ghost var before := k;
      Interfere();
      LookedLater(old(k), seen, found, before, k);
      EvolutionKeeps(old(k), k);
      SeenSupersede(old(k), seen, k);
      assert facts[|old(facts)|..] == seen;
      var failed: bool := *;
      if failed {
        var code: int := *;
        r := Err(code);
      } else {
        r := Ok(found);
      }
      Enter(Lookup(r));
    }
  }
}
