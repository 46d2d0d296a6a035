// The kernel as a transition system over process instances. Between any two
// steps of portpin, processes may exit, be reaped, start under a reused PID, and
// open or close sockets.
module Kernel {
  import opened Model

  // One process from its start to its reaping. Two hypotheses are built into the
  // steps below: an instance never comes back, and no two instances share both
  // their PID and their start time.
  datatype Instance = Instance(pid: nat, start: nat, serial: nat)

  datatype KernelState = KernelState(
    table: map<nat, Instance>,          // who holds each PID now, zombies included
    used: set<Instance>,                // every instance there has been
    zombies: set<Instance>,
    sockets: set<(Instance, AddrPort)>)

  datatype KernelEvent =
    | Exits(i: Instance)
    | Reaped(pid: nat)
    | Starts(i: Instance)
    | Binds(i: Instance, endpoint: AddrPort)
    | Unbinds(i: Instance, endpoint: AddrPort)

  // i has not been reaped.
  predicate Present(k: KernelState, i: Instance) {
    i.pid in k.table && k.table[i.pid] == i
  }

  ghost predicate WellFormed(k: KernelState) {
    && (forall pid :: pid in k.table ==> k.table[pid].pid == pid && k.table[pid] in k.used)
    && (forall i, j :: i in k.used && j in k.used && i.pid == j.pid && i.start == j.start ==> i == j)
    && (forall s :: s in k.sockets ==> Present(k, s.0) && s.0 !in k.zombies)
  }

  predicate Enabled(k: KernelState, ev: KernelEvent) {
    match ev
    case Exits(i) => Present(k, i) && i !in k.zombies
    case Reaped(pid) => pid in k.table && k.table[pid] in k.zombies
    case Starts(i) => i.pid !in k.table && forall j :: j in k.used ==> i.pid != j.pid || i.start != j.start
    case Binds(i, _) => Present(k, i) && i !in k.zombies
    case Unbinds(_, _) => true
  }

  function Apply(k: KernelState, ev: KernelEvent): KernelState
    requires Enabled(k, ev)
  {
    match ev
    case Exits(i) => k.(zombies := k.zombies + {i}, sockets := set s | s in k.sockets && s.0 != i)
    case Reaped(pid) => k.(table := k.table - {pid}, sockets := set s | s in k.sockets && s.0.pid != pid)
    case Starts(i) => k.(table := k.table[i.pid := i], used := k.used + {i})
    case Binds(i, endpoint) => k.(sockets := k.sockets + {(i, endpoint)})
    case Unbinds(i, endpoint) => k.(sockets := k.sockets - {(i, endpoint)})
  }

  ghost predicate Reachable(k: KernelState, events: seq<KernelEvent>, k': KernelState)
    decreases |events|
  {
    if events == [] then k == k'
    else Enabled(k, events[0]) && Reachable(Apply(k, events[0]), events[1..], k')
  }

  ghost predicate Evolves(k: KernelState, k': KernelState) {
    exists events :: Reachable(k, events, k')
  }

  // What any amount of kernel activity leaves true: an instance that has been
  // reaped stays away, even when its PID is in use again.
  ghost predicate Later(k: KernelState, k': KernelState) {
    k.used <= k'.used && forall i :: i in k.used && !Present(k, i) ==> !Present(k', i)
  }

  lemma EventKeeps(k: KernelState, ev: KernelEvent)
    requires WellFormed(k) && Enabled(k, ev)
    ensures WellFormed(Apply(k, ev)) && Later(k, Apply(k, ev))
  {
    var k' := Apply(k, ev);
    match ev
    case Starts(i) =>
      assert i !in k.used;
      forall j | j in k.used && !Present(k, j)
        ensures !Present(k', j)
      {
        assert j != i;
      }
    case Reaped(pid) =>
      forall s | s in k'.sockets
        ensures Present(k', s.0) && s.0 !in k'.zombies
      {
        assert s in k.sockets;
      }
    case _ =>
  }

  lemma {:induction false} RunKeeps(k: KernelState, events: seq<KernelEvent>, k': KernelState)
    requires WellFormed(k) && Reachable(k, events, k')
    ensures WellFormed(k') && Later(k, k')
    decreases |events|
  {
    if events != [] {
      EventKeeps(k, events[0]);
      RunKeeps(Apply(k, events[0]), events[1..], k');
    }
  }

  // The hypotheses hold in every run: a well-formed kernel stays well formed and
  // no reaped instance comes back.
  lemma EvolutionKeeps(k: KernelState, k': KernelState)
    requires WellFormed(k) && Evolves(k, k')
    ensures WellFormed(k') && Later(k, k')
  {
    var events :| Reachable(k, events, k');
    RunKeeps(k, events, k');
  }

  lemma {:induction false} ReachableGrows(k: KernelState, events: seq<KernelEvent>, k': KernelState)
    requires Reachable(k, events, k')
    ensures k.used <= k'.used
    decreases |events|
  {
    if events != [] {
      ReachableGrows(Apply(k, events[0]), events[1..], k');
    }
  }

  lemma UsedGrows(k: KernelState, k': KernelState)
    requires Evolves(k, k')
    ensures k.used <= k'.used
  {
    var events :| Reachable(k, events, k');
    ReachableGrows(k, events, k');
  }

  lemma {:induction false} ReachableSnoc(k: KernelState, events: seq<KernelEvent>, k': KernelState, ev: KernelEvent)
    requires Reachable(k, events, k') && Enabled(k', ev)
    ensures Reachable(k, events + [ev], Apply(k', ev))
    decreases |events|
  {
    if events == [] {
      assert events + [ev] == [ev];
    } else {
      assert (events + [ev])[0] == events[0] && (events + [ev])[1..] == events[1..] + [ev];
      ReachableSnoc(Apply(k, events[0]), events[1..], k', ev);
    }
  }

  // The sandwich: if the PID starts at the same time before and after, then the
  // same instance held it throughout, so it is the one opened in between.
  lemma Sandwich(before: KernelState, open: KernelState, after: KernelState, pid: nat)
    requires WellFormed(before) && WellFormed(open) && WellFormed(after)
    requires Later(before, open) && Later(open, after)
    requires pid in before.table && pid in open.table && pid in after.table
    requires before.table[pid].start == after.table[pid].start
    ensures before.table[pid] == open.table[pid] == after.table[pid]
  {
    var a := before.table[pid];
    assert a in after.used && after.table[pid] in after.used;
    assert after.table[pid] == a;
    assert Present(after, a);
    assert Present(open, a);
  }

  // A PID that has passed on is held by an instance that started since.
  lemma PassedOn(k: KernelState, k': KernelState, pid: nat)
    requires WellFormed(k) && WellFormed(k') && Later(k, k') && pid in k.table && pid in k'.table
    requires k.table[pid].start != k'.table[pid].start
    ensures k'.table[pid] !in k.used
  {
    if k'.table[pid] in k.used {
      assert !Present(k, k'.table[pid]);
      assert Present(k', k'.table[pid]);
    }
  }

  // A pin that opens the pidfd first and reads the start time only afterwards
  // would accept the read when discovery knows no start time, or this one.
  ghost predicate AcceptedByOneRead(known: nat, open: KernelState, after: KernelState, pid: nat, read: nat) {
    && WellFormed(open) && Evolves(open, after) && pid in open.table
    && pid in after.table && after.table[pid].start == read
    && (known == 0 || read == known)
  }

  // The PID of a zombie is reaped and passes on to j.
  lemma HandsOver(k: KernelState, j: Instance)
    requires WellFormed(k) && j.pid in k.table && k.table[j.pid] in k.zombies
    requires forall i :: i in k.used ==> i.pid != j.pid || i.start != j.start
    ensures Evolves(k, Apply(Apply(k, Reaped(j.pid)), Starts(j)))
  {
    assert Reachable(k, [], k);
    ReachableSnoc(k, [], k, Reaped(j.pid));
    ReachableSnoc(k, [] + [Reaped(j.pid)], Apply(k, Reaped(j.pid)), Starts(j));
  }

  // When discovery knows no start time, the instance opened need not be the one
  // that was read: the PID may have passed on in between.
  lemma OneReadIsNotEnough()
    ensures exists open: KernelState, after: KernelState, pid: nat, read: nat ::
      AcceptedByOneRead(0, open, after, pid, read) && open.table[pid].start != read
  {
    var i, j := Instance(7, 1, 0), Instance(7, 2, 1);
    var k0 := KernelState(map[7 := i], {i}, {i}, {});
    var k2 := Apply(Apply(k0, Reaped(7)), Starts(j));
    HandsOver(k0, j);
    assert AcceptedByOneRead(0, k0, k2, 7, 2);
    assert k0.table[7].start != 2;
  }

  // When the start time is that of an instance there was before the open, one
  // later read does: it is that instance that was opened.
  lemma OneReadIsEnoughWhenKnown(open: KernelState, after: KernelState, meant: Instance, read: nat)
    requires meant in open.used && meant.start != 0
    requires AcceptedByOneRead(meant.start, open, after, meant.pid, read)
    ensures open.table[meant.pid] == meant
  {
    EvolutionKeeps(open, after);
    assert Present(after, meant);
  }

  // ---- a signal to a bare PID ----

  // The start time under the PID agreed in state `read`; who holds the PID in the
  // later state `now`, in which the signal is sent.
  ghost predicate Guarded(read: KernelState, now: KernelState, pid: nat, start: nat, who: Instance) {
    && pid in read.table && read.table[pid].start == start
    && Evolves(read, now) && who.pid == pid && Present(now, who)
  }

  // The signal reaches the instance that was read exactly when that has not been
  // reaped, and otherwise one that started since.
  lemma GuardedRecipient(read: KernelState, now: KernelState, pid: nat, start: nat, who: Instance)
    requires WellFormed(read) && Guarded(read, now, pid, start, who)
    ensures who == read.table[pid] <==> Present(now, read.table[pid])
    ensures who == read.table[pid] <==> who in read.used
  {
    EvolutionKeeps(read, now);
  }

  // Whom a signal can reach that is sent through a pin of this instance.
  ghost predicate SentThrough(pidfd: bool, pinned: Instance, read: KernelState, now: KernelState, who: Instance) {
    if pidfd then who == pinned && Present(now, who) else Guarded(read, now, pinned.pid, pinned.start, who)
  }

  // The start time agrees, then the PID is reaped and handed on, then the signal
  // is sent: it reaches another process.
  lemma BareKillMayMiss()
    ensures exists pinned: Instance, read: KernelState, now: KernelState, who: Instance ::
      WellFormed(read) && Present(read, pinned) && SentThrough(false, pinned, read, now, who) && who != pinned
  {
    var i, j := Instance(7, 1, 0), Instance(7, 2, 1);
    var k0 := KernelState(map[7 := i], {i}, {i}, {});
    var k2 := Apply(Apply(k0, Reaped(7)), Starts(j));
    HandsOver(k0, j);
    assert Present(k0, i) && SentThrough(false, i, k0, k2, j);
  }

  // Nobody but the pinned process is ever signalled exactly when the pin is a pidfd.
  lemma NeverAnotherIff(pidfd: bool)
    ensures (forall pinned, read, now, who ::
        WellFormed(read) && Present(read, pinned) && SentThrough(pidfd, pinned, read, now, who) ==> who == pinned)
      <==> pidfd
  {
    if !pidfd {
      BareKillMayMiss();
    }
  }

  // ---- what a read by PID is about ----

  lemma EvolvesOne(k: KernelState, k': KernelState, ev: KernelEvent)
    requires Evolves(k, k') && Enabled(k', ev)
    ensures Evolves(k, Apply(k', ev))
  {
    var events :| Reachable(k, events, k');
    ReachableSnoc(k, events, k', ev);
  }

  // The state letter read under the PID of a pinned instance may be that of
  // another: the instance is reaped, and a zombie holds its PID.
  lemma ZombieMayBeAnother()
    ensures exists pinned: Instance, k: KernelState, k': KernelState ::
      WellFormed(k) && Present(k, pinned) && Evolves(k, k') && !Present(k', pinned)
      && pinned.pid in k'.table && k'.table[pinned.pid] in k'.zombies
  {
    var i, j := Instance(7, 1, 0), Instance(7, 2, 1);
    var k0 := KernelState(map[7 := i], {i}, {i}, {});
    var k2 := Apply(Apply(k0, Reaped(7)), Starts(j));
    HandsOver(k0, j);
    EvolvesOne(k0, k2, Exits(j));
    assert Present(k0, i) && !Present(Apply(k2, Exits(j)), i);
  }

  // A read under the PID of an instance is about that instance exactly when it
  // has not been reaped, which comparing start times would show.
  lemma ReadIsAboutPinnedIff(k: KernelState, k': KernelState, pinned: Instance)
    requires WellFormed(k) && pinned in k.used && Evolves(k, k') && pinned.pid in k'.table
    ensures k'.table[pinned.pid] == pinned <==> Present(k', pinned)
    ensures k'.table[pinned.pid] == pinned <==> k'.table[pinned.pid].start == pinned.start
  {
    EvolutionKeeps(k, k');
  }

  ghost predicate NoSocketUnder(k: KernelState, pid: nat) {
    forall s :: s in k.sockets ==> s.0.pid != pid
  }

  // A zombie has let go of every socket.
  lemma ZombieHoldsNothing(k: KernelState, pid: nat)
    requires WellFormed(k) && pid in k.table && k.table[pid] in k.zombies
    ensures NoSocketUnder(k, pid)
  {
    forall s | s in k.sockets
      ensures s.0.pid != pid
    {
      assert Present(k, s.0);
    }
  }

  // At any instant start times tell whether it has.
  lemma SameStart(k: KernelState, i: Instance)
    requires WellFormed(k) && i in k.used && i.pid in k.table
    ensures Present(k, i) <==> k.table[i.pid].start == i.start
  {
  }

  // ---- evolutions compose ----

  lemma EvolvesNow(k: KernelState)
    ensures Evolves(k, k)
  {
    assert Reachable(k, [], k);
  }

  lemma {:induction false} ReachableOn(k: KernelState, events: seq<KernelEvent>, k': KernelState,
      more: seq<KernelEvent>, k'': KernelState)
    requires Reachable(k, events, k') && Reachable(k', more, k'')
    ensures Reachable(k, events + more, k'')
    decreases |events|
  {
    if events == [] {
      assert events + more == more;
    } else {
      assert (events + more)[0] == events[0] && (events + more)[1..] == events[1..] + more;
      ReachableOn(Apply(k, events[0]), events[1..], k', more, k'');
    }
  }

  lemma EvolvesOn(k: KernelState, k': KernelState, k'': KernelState)
    requires Evolves(k, k') && Evolves(k', k'')
    ensures Evolves(k, k'')
  {
    var events :| Reachable(k, events, k');
    var more :| Reachable(k', more, k'');
    ReachableOn(k, events, k', more, k'');
  }
}
