// Whom a teardown may signal, and that it signals nobody else.
module Vetting {
  import opened Model
  import opened Kernel
  import opened Machine
  import opened Pinning
  import opened Grouping
  import opened Watching

  // The endpoint a teardown frees, the PIDs its probe looks for, the processes it
  // means, and the controllers it made to signal them; `pidfd` says that these hold
  // pidfds.
  datatype Mandate = Mandate(endpoint: AddrPort, pids: seq<nat>, metas: seq<ProcMeta>, cs: set<object>, pidfd: bool)

  // c pins the process one of these metas means.
  ghost predicate FitsOne(c: LinuxController, metas: seq<ProcMeta>) {
    exists j :: 0 <= j < |metas| && Fits(c, metas[j])
  }

  // The recipient of the signal of fact n has the PID of c, and its start time
  // unless it started since every fact before.
  ghost predicate AimedAt(facts: seq<Fact>, n: nat, c: LinuxController)
    requires n < |facts| && facts[n].Delivered?
  {
    facts[n].who.pid == c.meta.pid && (facts[n].who.start == c.meta.startTime || Newcomer(facts, n))
  }

  ghost predicate SeenUnderPids(facts: seq<Fact>, q: int, md: Mandate)
    requires 0 <= q < |facts|
  {
    facts[q].Seen? && facts[q].endpoint == md.endpoint && facts[q].who.pid in md.pids
  }

  // The signal of fact n was aimed through one of the controllers, after somebody
  // under one of the PIDs was seen holding the endpoint.
  ghost predicate Checked(facts: seq<Fact>, from: nat, n: nat, md: Mandate)
    requires n < |facts| && facts[n].Delivered?
  {
    && (exists c: LinuxController :: c in md.cs && FitsOne(c, md.metas) && AimedAt(facts, n, c))
    && exists q :: from <= q < n && SeenUnderPids(facts, q, md)
  }

  ghost predicate PinnedAt(facts: seq<Fact>, p: int, who: Instance)
    requires 0 <= p < |facts|
  {
    facts[p].Opened? && facts[p].who == who
  }

  ghost predicate SeenAt(facts: seq<Fact>, q: int, who: Instance, md: Mandate)
    requires 0 <= q < |facts|
  {
    SeenUnderPids(facts, q, md) && (facts[q].who.pid == who.pid ==> facts[q].who == who)
  }

  // Through a pidfd: the recipient of the signal of fact n was pinned first and
  // then, at a later instant but before the signal, somebody under one of the PIDs
  // was seen holding the endpoint; under the recipient's own PID only the recipient.
  ghost predicate Vetted(facts: seq<Fact>, from: nat, n: nat, md: Mandate)
    requires n < |facts| && facts[n].Delivered?
  {
    exists p, q :: from <= p < q < n && PinnedAt(facts, p, facts[n].who) && SeenAt(facts, q, facts[n].who, md)
  }

  // who is the process discovery meant by one of these metas.
  ghost predicate Identified(who: Instance, metas: seq<ProcMeta>) {
    exists j :: 0 <= j < |metas| && metas[j].pid == who.pid
      && (metas[j].startTime != 0 ==> metas[j].startTime == who.start)
  }

  // Every signal since `from` was within the mandate.
  ghost predicate RecipientsVetted(facts: seq<Fact>, from: nat, md: Mandate) {
    forall n: nat :: from <= n < |facts| && facts[n].Delivered? ==>
      Checked(facts, from, n, md) && (md.pidfd ==> Vetted(facts, from, n, md) && Identified(facts[n].who, md.metas))
  }

  // The pidfd of c was opened in the journal before.
  ghost predicate OpenedFor(c: LinuxController, w: Watch, from: nat) {
    c.fd in w.fds && exists p :: from <= p < |w.before| && Opens(w.before[p], c.fd, w.fds[c.fd])
  }

  // Before Run: what the pins have established about the targets.
  ghost predicate Founded(w: Watch, from: nat, md: Mandate) {
    && from <= |w.before| && md.endpoint == w.endpoint && md.pids == w.pids
    && (forall n :: from <= n < |w.before| ==> !w.before[n].Delivered?)
    && (forall c :: c in w.targets ==> c in md.cs && FitsOne(c, md.metas))
    && (md.pidfd ==> forall c :: c in w.targets ==> c.fd >= 0 && c.Named(w.fds) && w.fds[c.fd] in w.known)
    && (md.pidfd ==> forall c :: c in w.targets ==> OpenedFor(c, w, from))
  }

  lemma RecipientsAreVetted(facts: seq<Fact>, k: KernelState, w: Watch, from: nat, md: Mandate)
    requires Founded(w, from, md) && Watched(facts, k, w)
    ensures RecipientsVetted(facts, from, md)
  {
    forall n: nat | from <= n < |facts| && facts[n].Delivered?
      ensures Checked(facts, from, n, md)
      ensures md.pidfd ==> Vetted(facts, from, n, md) && Identified(facts[n].who, md.metas)
    {
      var who := facts[n].who;
      assert Justified(facts, n, w);
      var c :| c in w.targets && MeantFor(facts, n, c, w.fds);
      var q :| q < n && Sighting(facts, q, w) && NoOtherSeen(who, facts[q].who, w);
      assert AimedAt(facts, n, c) && SeenUnderPids(facts, q, md);
      if md.pidfd {
        assert OpenedFor(c, w, from);
        var p :| from <= p < |w.before| && Opens(w.before[p], c.fd, w.fds[c.fd]);
        assert facts[p] == w.before[p];
        assert PinnedAt(facts, p, who) && SeenAt(facts, q, who, md);
        var j :| 0 <= j < |md.metas| && Fits(c, md.metas[j]);
        assert md.metas[j].pid == who.pid;
      }
    }
  }

  // The recipient was pinned, later it held the endpoint, and later still it was
  // signalled: by the journal, and by the clock of the kernel.
  ghost predicate HeldAfterPin(facts: seq<Fact>, n: nat, endpoint: AddrPort, p: int, q: int)
    requires n < |facts| && facts[n].Delivered?
  {
    var who := facts[n].who;
    && 0 <= p < q < n && PinnedAt(facts, p, who) && facts[q].Seen?
    && facts[q].who == who && facts[q].endpoint == endpoint
    && Present(facts[p].at, who) && (who, endpoint) in facts[q].at.sockets && Present(facts[n].at, who)
    && Evolves(facts[p].at, facts[q].at) && Evolves(facts[q].at, facts[n].at)
  }

  // In a teardown of one process through a pidfd the recipient itself held the
  // endpoint after it was pinned and before it was signalled.
  lemma OnlyHoldersAreSignalled(facts: seq<Fact>, now: KernelState, from: nat, md: Mandate, target: ProcMeta, n: nat)
    requires Chronicle(facts, now) && RecipientsVetted(facts, from, md)
    requires md.pidfd && md.pids == [target.pid] && md.metas == [target]
    requires from <= n < |facts| && facts[n].Delivered?
    ensures exists p, q :: from <= p && HeldAfterPin(facts, n, md.endpoint, p, q)
    ensures facts[n].who.pid == target.pid && (target.startTime != 0 ==> facts[n].who.start == target.startTime)
  {
    var p, q :| from <= p < q < n && PinnedAt(facts, p, facts[n].who) && SeenAt(facts, q, facts[n].who, md);
    assert Identified(facts[n].who, [target]);
    ChronicleOrder(facts, now, p, q);
    ChronicleOrder(facts, now, q, n);
    assert HeldAfterPin(facts, n, md.endpoint, p, q);
  }

  // With or without pidfds the recipient is a process discovery meant, or one that
  // started since any earlier fact that one chooses.
  lemma MeantOrNewer(facts: seq<Fact>, now: KernelState, from: nat, md: Mandate, n: nat, earlier: nat)
    requires Chronicle(facts, now) && RecipientsVetted(facts, from, md)
    requires from <= n < |facts| && facts[n].Delivered? && earlier < n
    ensures facts[n].who in facts[earlier].at.used ==> Identified(facts[n].who, md.metas)
    ensures exists j :: 0 <= j < |md.metas| && md.metas[j].pid == facts[n].who.pid
  {
    var c: LinuxController :| c in md.cs && FitsOne(c, md.metas) && AimedAt(facts, n, c);
    var j :| 0 <= j < |md.metas| && Fits(c, md.metas[j]);
    assert md.metas[j].pid == facts[n].who.pid;
    if Newcomer(facts, n) {
      NewcomerToAll(facts, now, n, earlier);
    }
  }

  lemma CheckStays(facts: seq<Fact>, more: seq<Fact>, from: nat, n: nat, md: Mandate)
    requires facts <= more && n < |facts| && facts[n].Delivered? && Checked(facts, from, n, md)
    ensures Checked(more, from, n, md)
  {
    var c: LinuxController :| c in md.cs && FitsOne(c, md.metas) && AimedAt(facts, n, c);
    var q :| from <= q < n && SeenUnderPids(facts, q, md);
    assert AimedAt(more, n, c) && SeenUnderPids(more, q, md);
  }

  lemma VettingStays(facts: seq<Fact>, more: seq<Fact>, from: nat, md: Mandate)
    requires RecipientsVetted(facts, from, md) && HandlesOnly(facts, more)
    ensures RecipientsVetted(more, from, md)
  {
    forall n: nat | from <= n < |more| && more[n].Delivered?
      ensures Checked(more, from, n, md)
      ensures (md.pidfd ==> Vetted(more, from, n, md) && Identified(more[n].who, md.metas))
    {
      assert more[n] == facts[n];
      CheckStays(facts, more, from, n, md);
      if md.pidfd {
        var p, q :| from <= p < q < n && PinnedAt(facts, p, facts[n].who) && SeenAt(facts, q, facts[n].who, md);
        assert PinnedAt(more, p, more[n].who) && SeenAt(more, q, more[n].who, md);
      }
    }
  }

  lemma VettedEarlier(facts: seq<Fact>, from: nat, earlier: nat, md: Mandate)
    requires earlier <= from && RecipientsVetted(facts, from, md)
    requires forall n :: earlier <= n < from && n < |facts| ==> !facts[n].Delivered?
    ensures RecipientsVetted(facts, earlier, md)
  {
    forall n: nat | earlier <= n < |facts| && facts[n].Delivered?
      ensures Checked(facts, earlier, n, md)
      ensures (md.pidfd ==> Vetted(facts, earlier, n, md) && Identified(facts[n].who, md.metas))
    {
      var q :| from <= q < n && SeenUnderPids(facts, q, md);
      if md.pidfd {
        var p, q' :| from <= p < q' < n && PinnedAt(facts, p, facts[n].who) && SeenAt(facts, q', facts[n].who, md);
      }
    }
  }

  lemma NothingSentYet(before: seq<Fact>, after: seq<Fact>, md: Mandate)
    requires HandlesOnly(before, after)
    ensures RecipientsVetted(after, |before|, md)
  {
  }
}
