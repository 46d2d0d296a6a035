// Who may be signalled: the argument that every recipient of a signal was seen
// holding the endpoint after it was pinned.
module Watching {
  import opened Model
  import opened Kernel
  import opened Machine
  import opened Pinning

  // One teardown: the journal before it, the instances known by then, the
  // endpoint and the PIDs its probe looks for, and the controllers it signals.
  datatype Watch = Watch(
    before: seq<Fact>, known: set<Instance>, endpoint: AddrPort, pids: seq<nat>,
    targets: seq<LinuxController>, fds: map<int, Instance>)

  // A probe has seen one of the PIDs hold the endpoint.
  ghost predicate Sighting(facts: seq<Fact>, q: int, w: Watch) {
    |w.before| <= q < |facts| && facts[q].Seen? && facts[q].endpoint == w.endpoint && facts[q].who.pid in w.pids
  }

  ghost predicate Sighted(facts: seq<Fact>, w: Watch) {
    exists q :: Sighting(facts, q, w)
  }

  // The recipient of the signal of fact n started since the fact before.
  ghost predicate Newcomer(facts: seq<Fact>, n: int)
    requires 0 <= n < |facts| && facts[n].Delivered?
  {
    n > 0 && facts[n].who !in facts[n - 1].at.used
  }

  // It started since every fact before.
  lemma NewcomerToAll(facts: seq<Fact>, now: KernelState, n: nat, earlier: nat)
    requires Chronicle(facts, now) && earlier < n < |facts| && facts[n].Delivered? && Newcomer(facts, n)
    ensures facts[n].who !in facts[earlier].at.used
  {
    ChronicleOrder(facts, now, earlier, n - 1);
    UsedGrows(facts[earlier].at, facts[n - 1].at);
  }

  // Whoever was not in use when the kernel was in state k is a newcomer later.
  lemma NotInUseBefore(facts: seq<Fact>, k: KernelState, f: Fact)
    requires facts != [] && Chronicle(facts, k) && f.Delivered? && f.who !in k.used
    ensures Newcomer(facts + [f], |facts|)
  {
    UsedGrows(facts[|facts| - 1].at, k);
  }

  // The signal of fact n was meant for c: under a pidfd it reached the pinned
  // instance, and without one an instance with its start time or a newcomer.
  ghost predicate MeantFor(facts: seq<Fact>, n: int, c: LinuxController, fds: map<int, Instance>)
    requires 0 <= n < |facts| && facts[n].Delivered?
  {
    var who := facts[n].who;
    && who.pid == c.meta.pid && (c.fd >= 0 ==> c.fd in fds && fds[c.fd] == who)
    && (who.start == c.meta.startTime || Newcomer(facts, n))
  }

  ghost predicate Aimed(facts: seq<Fact>, n: int, w: Watch)
    requires 0 <= n < |facts| && facts[n].Delivered?
  {
    exists c :: c in w.targets && MeantFor(facts, n, c, w.fds)
  }

  ghost predicate NoOtherSeen(who: Instance, holder: Instance, w: Watch) {
    who in w.known && who.pid == holder.pid ==> who == holder
  }

  // The signal of fact n went to a target, after a sighting; and if the holder
  // was seen under the recipient's own PID, then it was the recipient.
  ghost predicate Justified(facts: seq<Fact>, n: int, w: Watch)
    requires 0 <= n < |facts| && facts[n].Delivered?
  {
    var who := facts[n].who;
    Aimed(facts, n, w) && exists q :: q < n && Sighting(facts, q, w) && NoOtherSeen(who, facts[q].who, w)
  }

  // What holds of the journal at every moment of the teardown.
  ghost predicate Watched(facts: seq<Fact>, k: KernelState, w: Watch) {
    && w.before <= facts && w.known <= k.used
    && (forall n, i :: |w.before| <= n < |facts| && facts[n].Seen? && i in w.known ==>
          i.pid == facts[n].who.pid && i != facts[n].who ==> !Present(k, i))
    && (forall n :: |w.before| <= n < |facts| && facts[n].Delivered? ==> Justified(facts, n, w))
  }

  lemma WatchedLater(facts: seq<Fact>, k: KernelState, k': KernelState, w: Watch)
    requires Watched(facts, k, w) && Later(k, k')
    ensures Watched(facts, k', w)
  {
  }

  lemma JustifiedStays(facts: seq<Fact>, n: int, w: Watch, more: seq<Fact>)
    requires 0 <= n < |facts| && facts[n].Delivered? && Justified(facts, n, w) && facts <= more
    ensures Justified(more, n, w)
  {
    var who := facts[n].who;
    var q :| q < n && Sighting(facts, q, w) && NoOtherSeen(who, facts[q].who, w);
    assert Sighting(more, q, w) && more[q] == facts[q];
    var c :| c in w.targets && MeantFor(facts, n, c, w.fds);
    assert MeantFor(more, n, c, w.fds);
  }

  // A delivery is justified: its recipient is present, so nobody else can have
  // been seen under its PID.
  lemma WatchedDelivery(facts: seq<Fact>, k: KernelState, w: Watch, f: Fact)
    requires Watched(facts, k, w) && Sighted(facts, w) && f.Delivered?
    requires Present(k, f.who) && Aimed(facts + [f], |facts|, w)
    ensures Watched(facts + [f], k, w)
  {
    var more := facts + [f];
    forall n | |w.before| <= n < |more| && more[n].Delivered?
      ensures Justified(more, n, w)
    {
      if n < |facts| {
        JustifiedStays(facts, n, w, more);
      } else {
        var q :| Sighting(facts, q, w);
        assert Sighting(more, q, w) && more[q] == facts[q];
      }
    }
  }

  // A lookup only adds sightings, and they supersede the known instances.
  lemma WatchedLookup(facts: seq<Fact>, k: KernelState, k': KernelState, w: Watch, more: seq<Fact>)
    requires Watched(facts, k, w) && Later(k, k') && facts <= more && SeenBetween(k, more[|facts|..], k')
    requires Superseded(k.used, more[|facts|..], k')
    ensures Watched(more, k', w)
  {
    var seen := more[|facts|..];
    forall n | |facts| <= n < |more|
      ensures more[n] == seen[n - |facts|] && more[n].Seen?
    {
    }
    forall n | |w.before| <= n < |more| && more[n].Delivered?
      ensures Justified(more, n, w)
    {
      JustifiedStays(facts, n, w, more);
    }
  }
}
