// Pinning one process on Linux and signalling through the pin.
module Pinning {
  import opened Model
  import opened Kernel
  import opened Machine

  // What a controller makes of the errno of a signal call. A signal call that
  // reports ENOSYS or EACCES falls into the catch-all of the source.
  function SendError(sent: Option<Errno>): Option<PinError> {
    match sent
    case None => None
    case Some(ESRCH) => Some(ProcessGone)
    case Some(EPERM) => Some(PermissionDenied)
    case Some(ENOSYS) => Some(OtherError(38))
    case Some(EACCES) => Some(OtherError(13))
    case Some(OtherErrno(code)) => Some(OtherError(code))
  }

  // Over the errno: what a signal call reports.
  predicate Becomes(refusal: Option<Errno>, e: Option<PinError>) {
    && (e == None <==> refusal == None)
    && (e == Some(ProcessGone) <==> refusal == Some(ESRCH))
    && (e == Some(PermissionDenied) <==> refusal == Some(EPERM))
    && e != Some(IdentityChanged) && e != Some(NoConsole)
    && (refusal.Some? && refusal.value.OtherErrno? ==> e == Some(OtherError(refusal.value.code)))
  }

  predicate Killed(c: SysCall, pid: nat, sig: Signal, e: Option<PinError>) {
    c.KillCall? && c.pid == pid && c.signal == sig && Becomes(c.refusal, e)
  }

  // Over the system calls of the fallback: the start time is read, and the kill is
  // sent only when it is this one.
  predicate SentRaw(pid: nat, start: nat, sig: Signal, made: seq<SysCall>, e: Option<PinError>) {
    && |made| > 0 && made[0].StatCall? && made[0].pid == pid
    && match made[0].start
       case Err(NotExist) => |made| == 1 && e == Some(ProcessGone)
       case Err(Unreadable(code)) => |made| == 1 && e == Some(OtherError(code))
       case Ok(now) =>
         if now != start then |made| == 1 && e == Some(IdentityChanged)
         else |made| == 2 && Killed(made[1], pid, sig, e)
  }

  // Over the second read of a pin.
  predicate ReadAgain(pid: nat, before: nat, fd: int, c: SysCall, r: Result<int, PinError>) {
    && c.StatCall? && c.pid == pid
    && match c.start
       case Err(NotExist) => r == Err(ProcessGone)
       case Err(Unreadable(code)) => r == Err(OtherError(code))
       case Ok(now) => r == if now == before then Ok(fd) else Err(IdentityChanged)
  }

  // Over the errno: what a pin reports when no pidfd is opened.
  predicate OpenFails(errno: Errno, e: PinError) {
    match errno
    case ESRCH => e == ProcessGone
    case EPERM => e == PermissionDenied
    case EACCES => e == PermissionDenied
    case OtherErrno(code) => e == OtherError(code)
    case ENOSYS => false
  }

  // Over the system calls of a pin after the first read, which showed `before`. A
  // kernel without pidfds is no failure.
  predicate OpenedAndRead(pid: nat, before: nat, made: seq<SysCall>, r: Result<int, PinError>) {
    && |made| > 0 && made[0].OpenCall? && made[0].pid == pid
    && match made[0].got
       case Err(ENOSYS) => |made| == 2 && ReadAgain(pid, before, -1, made[1], r)
       case Err(errno) => |made| == 1 && r.Err? && OpenFails(errno, r.error)
       case Ok(fd) => |made| == 2 && ReadAgain(pid, before, fd, made[1], r)
  }

  lemma OpenedThenRead(pid: nat, before: nat, got: Result<int, Errno>, fd: int, c: SysCall, r: Result<int, PinError>)
    requires got == (if fd >= 0 then Ok(fd) else Err(ENOSYS))
    requires (fd < 0 ==> fd == -1) && ReadAgain(pid, before, fd, c, r)
    ensures OpenedAndRead(pid, before, [OpenCall(pid, got)] + [c], r)
  {
  }

  // Over the system calls of a pin: the start time and descriptor it ends with, or
  // its error.
  predicate PinnedBy(meta: ProcMeta, made: seq<SysCall>, r: Result<(nat, int), PinError>) {
    && |made| > 0 && made[0].StatCall? && made[0].pid == meta.pid
    && match made[0].start
       case Err(NotExist) => |made| == 1 && r == Err(ProcessGone)
       case Err(Unreadable(code)) => |made| == 1 && r == Err(OtherError(code))
       case Ok(before) =>
         if meta.startTime != 0 && before != meta.startTime then |made| == 1 && r == Err(IdentityChanged)
         else
           && (r.Ok? ==> r.value.0 == before)
           && OpenedAndRead(meta.pid, before, made[1..], if r.Ok? then Ok(r.value.1) else Err(r.error))
  }

  lemma ReadThenOpened(meta: ProcMeta, before: nat, more: seq<SysCall>, r: Result<int, PinError>)
    requires (meta.startTime != 0 ==> before == meta.startTime) && OpenedAndRead(meta.pid, before, more, r)
    ensures PinnedBy(meta, [StatCall(meta.pid, Ok(before))] + more,
      if r.Ok? then Ok((before, r.value)) else Err(r.error))
  {
    assert ([StatCall(meta.pid, Ok(before))] + more)[1..] == more;
  }

  class LinuxController {
    const meta: ProcMeta
    const fd: int            // -1 when the kernel has no pidfds
    var valid: bool          // false once Close has run
    ghost var closes: nat    // how often Close has been called

    constructor (meta: ProcMeta, fd: int)
      ensures this.meta == meta && this.fd == fd && valid && closes == 0
    {
      this.meta := meta;
      this.fd := fd;
      valid := true;
      closes := 0;
    }

    // While it is valid, the controller owns an open pidfd that names the
    // instance with the controller's PID and start time.
    ghost predicate Holds(m: Machine)
      reads this, m
    {
      valid ==> Named(m.fds)
    }

    // These descriptors name the pinned instance under the controller's pidfd.
    ghost predicate Named(fds: map<int, Instance>) {
      fd >= 0 ==> fd in fds && fds[fd].pid == meta.pid && fds[fd].start == meta.startTime
    }

    // Whom a signal of this controller can reach at this instant.
    ghost predicate Reaches(m: Machine, who: Instance)
      requires Holds(m) && valid
      reads this, m
    {
      Present(m.k, who) && who.pid == meta.pid && (fd >= 0 ==> who == m.fds[fd])
    }

    // Over the system calls of a signal through the pidfd.
    ghost predicate SentPidfd(sig: Signal, made: seq<SysCall>, e: Option<PinError>) {
      |made| == 1 && made[0].PidfdCall? && made[0].fd == fd && made[0].signal == sig && Becomes(made[0].refusal, e)
    }

    // The fallback: the start time is read once more, immediately before the kill.
    // The signal goes to whoever holds the PID after that, which is an instance with
    // the controller's start time or one that started since the call began.
    method SendRaw(m: Machine, sig: Signal)
      returns (e: Option<PinError>, ghost who: Instance, ghost read: KernelState, ghost made: seq<SysCall>)
      requires m.Valid() && valid && fd < 0
      modifies m`k, m`calls, m`facts
      ensures m.Sane() && Later(old(m.k), m.k)
      ensures Received(m.facts) == if e == None then Sent(m.requests) + [(meta.pid, sig)] else Sent(m.requests)
      ensures e.Some? ==> m.facts == old(m.facts)
      ensures e == None ==> Reaches(m, who) && m.facts == old(m.facts) + [Delivered(who, sig, m.k)]
      ensures e == None ==> Evolves(old(m.k), read) && Guarded(read, m.k, meta.pid, meta.startTime, who)
      ensures e == None ==> who.start == meta.startTime || who !in old(m.k).used
      ensures e == Some(ProcessGone) ==> meta.pid !in m.k.table
      ensures e == Some(IdentityChanged) ==> meta.pid in m.k.table && m.k.table[meta.pid].start != meta.startTime
      ensures m.calls == old(m.calls) + made && SentRaw(meta.pid, meta.startTime, sig, made, e)
    {
      who := *;
      var now := m.ReadStartTime(meta.pid);
      read, made := m.k, [StatCall(meta.pid, now)];
      if now.Err? {
        e := Some(if now.error == NotExist then ProcessGone else OtherError(now.error.code));
        return;
      }
      if now.value != meta.startTime {
        e := Some(IdentityChanged);
        return;
      }
      var sent := m.RawKill(meta.pid, sig);
      e, made := SendError(sent), made + [KillCall(meta.pid, sig, sent)];
      if e == None {
        who := m.k.table[meta.pid];
        GuardedRecipient(read, m.k, meta.pid, meta.startTime, who);
      }
    }

    // Through the pidfd the signal goes to the pinned instance or to nobody.
    method SendPidfd(m: Machine, sig: Signal)
      returns (e: Option<PinError>, ghost who: Instance, ghost made: seq<SysCall>)
      requires m.Valid() && Holds(m) && valid && fd >= 0
      modifies m`k, m`calls, m`facts
      ensures m.Sane() && Later(old(m.k), m.k)
      ensures Received(m.facts) == if e == None then Sent(m.requests) + [(meta.pid, sig)] else Sent(m.requests)
      ensures e.Some? ==> m.facts == old(m.facts)
      ensures e == None ==> Reaches(m, who) && m.facts == old(m.facts) + [Delivered(who, sig, m.k)]
      ensures e == None ==> who.start == meta.startTime
      ensures e == Some(ProcessGone) ==> !Present(m.k, m.fds[fd])
      ensures e != Some(IdentityChanged)
      ensures m.calls == old(m.calls) + made && SentPidfd(sig, made, e)
    {
      var sent := m.PidfdSendSignal(fd, sig);
      e, who, made := SendError(sent), m.fds[fd], [PidfdCall(fd, sig, sent)];
    }

    // The signal goes to the pinned instance or to nobody; without a pidfd, as above.
    method SendSignal(m: Machine, sig: Signal)
      returns (e: Option<PinError>, ghost who: Instance, ghost read: KernelState, ghost made: seq<SysCall>)
      requires m.Valid() && Holds(m)
      modifies m`k, m`calls, m`facts, m`requests
      ensures m.Valid() && Holds(m) && Later(old(m.k), m.k)
      ensures m.requests == old(m.requests) + [Attempt(meta.pid, sig, e)]
      ensures e.Some? ==> m.facts == old(m.facts)
      ensures e == None ==> valid && Reaches(m, who) && m.facts == old(m.facts) + [Delivered(who, sig, m.k)]
      ensures e == None && fd < 0 ==> Evolves(old(m.k), read) && Guarded(read, m.k, meta.pid, meta.startTime, who)
      ensures e == None ==> who.start == meta.startTime || who !in old(m.k).used
      ensures e == Some(ProcessGone) && valid && fd >= 0 ==> !Present(m.k, m.fds[fd])
      ensures e == Some(ProcessGone) && valid && fd < 0 ==> meta.pid !in m.k.table
      ensures e == Some(IdentityChanged) ==>
        fd < 0 && meta.pid in m.k.table && m.k.table[meta.pid].start != meta.startTime
      ensures m.calls == old(m.calls) + made
      ensures !valid ==> made == [] && e == Some(ProcessGone)
      ensures valid && fd >= 0 ==> SentPidfd(sig, made, e)
      ensures valid && fd < 0 ==> SentRaw(meta.pid, meta.startTime, sig, made, e)
    {
      who, read, made := *, m.k, [];
      if !valid {
        e := Some(ProcessGone);
      } else if fd >= 0 {
        e, who, made := SendPidfd(m, sig);
      } else {
        e, who, read, made := SendRaw(m, sig);
      }
      m.Enter(Attempt(meta.pid, sig, e));
    }

    method Close(m: Machine)
      requires m.Valid() && Holds(m)
      modifies this`valid, this`closes, m`fds, m`facts
      ensures m.Valid() && !valid && closes == old(closes) + 1
      ensures m.fds == if old(valid) && fd >= 0 then old(m.fds) - {fd} else old(m.fds)
      ensures m.facts == if old(valid) && fd >= 0 then old(m.facts) + [Closed(fd, m.k)] else old(m.facts)
    {
      closes := closes + 1;
      if !valid {
        return;
      }
      valid := false;
      if fd >= 0 {
        m.PidfdClose(fd);
      }
    }
  }

  // A controller as Pin hands it out: it pins one instance, whose start time is
  // the controller's and, when discovery knew one, discovery's.
  ghost predicate Pinned(c: LinuxController, meta: ProcMeta, fds: map<int, Instance>, m: Machine)
    reads c, m
  {
    && c.valid && c.closes == 0 && c.Holds(m)
    && c.meta == meta.(startTime := c.meta.startTime)
    && (meta.startTime != 0 ==> c.meta.startTime == meta.startTime)
    && (if c.fd >= 0 then c.fd !in fds && c.fd in m.fds && m.fds == fds[c.fd := m.fds[c.fd]]
        else c.fd == -1 && m.fds == fds && !m.hasPidfd)
  }

  predicate Opens(f: Fact, fd: int, who: Instance) {
    f.Opened? && f.fd == fd && f.who == who
  }

  // One pidfd was opened in between, on this instance.
  ghost predicate OpenedOne(before: seq<Fact>, after: seq<Fact>, fd: int, who: Instance) {
    |after| == |before| + 1 && before <= after && Opens(after[|before|], fd, who)
  }

  // Nothing happened in between but the opening and closing of pidfds.
  ghost predicate HandlesOnly(before: seq<Fact>, after: seq<Fact>) {
    before <= after && forall n :: |before| <= n < |after| ==> after[n].Opened? || after[n].Closed?
  }

  // Opens a pidfd for the PID; -1 stands for a kernel without pidfds.
  method OpenPidfd(m: Machine, pid: nat) returns (r: Result<int, PinError>, ghost got: Result<int, Errno>)
    requires m.Valid()
    modifies m`k, m`calls, m`fds, m`facts
    ensures m.Valid() && Later(old(m.k), m.k)
    ensures r.Err? ==> m.fds == old(m.fds) && m.facts == old(m.facts) && m.hasPidfd
    ensures r == Err(ProcessGone) ==> pid !in m.k.table
    ensures r.Err? ==> r.error != IdentityChanged && r.error != NoConsole
    ensures r.Ok? ==> if r.value >= 0
      then pid in m.k.table && r.value !in old(m.fds) && m.fds == old(m.fds)[r.value := m.k.table[pid]]
        && OpenedOne(old(m.facts), m.facts, r.value, m.k.table[pid])
      else r.value == -1 && !m.hasPidfd && m.fds == old(m.fds) && m.facts == old(m.facts)
    ensures m.calls == old(m.calls) + [OpenCall(pid, got)]
    ensures r.Err? ==> got.Err? && OpenFails(got.error, r.error)
    ensures r.Ok? ==> got == if r.value >= 0 then Ok(r.value) else Err(ENOSYS)
  {
    var answer := m.PidfdOpen(pid);
    got := answer;
    match answer {
      case Ok(rawFd) => r := Ok(rawFd);
      case Err(ENOSYS) => r := Ok(-1);
      case Err(ESRCH) => r := Err(ProcessGone);
      case Err(EPERM) => r := Err(PermissionDenied);
      case Err(EACCES) => r := Err(PermissionDenied);
      case Err(OtherErrno(code)) => r := Err(OtherError(code));
    }
  }

  method Discard(m: Machine, fd: int)
    requires m.Valid() && (fd >= 0 ==> fd in m.fds)
    modifies m`fds, m`facts
    ensures m.Valid()
    ensures if fd >= 0 then m.fds == old(m.fds) - {fd} && m.facts == old(m.facts) + [Closed(fd, m.k)]
      else m.fds == old(m.fds) && m.facts == old(m.facts)
  {
    if fd >= 0 {
      m.PidfdClose(fd);
    }
  }

  // Opening a descriptor and closing it again leaves nothing behind.
  ghost predicate LeftNothing(m: Machine, fds: map<int, Instance>, facts: seq<Fact>)
    reads m
  {
    m.fds == fds && HandlesOnly(facts, m.facts)
  }

  // `now` is not the process discovery saw, or started after k.
  ghost predicate Replaced(meta: ProcMeta, k: KernelState, now: Instance) {
    (meta.startTime != 0 && now.start != meta.startTime) || now !in k.used
  }

  // How a pin call ended, given the machine it started from.
  ghost predicate PinEnded(m: Machine, meta: ProcMeta, r: Result<LinuxController, PinError>,
      k: KernelState, fds: map<int, Instance>, facts: seq<Fact>, handedOut: set<object>)
    reads m, if r.Ok? then {r.value} else {}
  {
    match r
    case Ok(c) =>
      && Pinned(c, meta, fds, m)
      && (if c.fd >= 0 then OpenedOne(facts, m.facts, c.fd, m.fds[c.fd]) else m.facts == facts)
      && m.handedOut == handedOut + {c}
    case Err(e) =>
      && LeftNothing(m, fds, facts)
      && m.handedOut == handedOut
      && (e == ProcessGone ==> meta.pid !in m.k.table)
      && (e == IdentityChanged ==> meta.pid in m.k.table && Replaced(meta, k, m.k.table[meta.pid]))
  }

  method HandOut(m: Machine, meta: ProcMeta, fd: int) returns (c: LinuxController)
    requires m.Valid()
    modifies m`handedOut
    ensures m.Valid() && fresh(c) && m.handedOut == old(m.handedOut) + {c}
    ensures c.meta == meta && c.fd == fd && c.valid && c.closes == 0
  {
    c := new LinuxController(meta, fd);
    m.handedOut := m.handedOut + {c};
  }

  // The first half: the start time must be the one discovery knew, if it knew one.
  method FirstRead(m: Machine, meta: ProcMeta) returns (r: Result<nat, PinError>, ghost c: SysCall)
    requires m.Valid()
    modifies m`k, m`calls
    ensures m.Valid() && Later(old(m.k), m.k)
    ensures r.Ok? ==> meta.pid in m.k.table && m.k.table[meta.pid].start == r.value
    ensures r.Ok? && meta.startTime != 0 ==> r.value == meta.startTime
    ensures r == Err(ProcessGone) ==> meta.pid !in m.k.table
    ensures r == Err(IdentityChanged) ==>
      meta.pid in m.k.table && meta.startTime != 0 && m.k.table[meta.pid].start != meta.startTime
    ensures m.calls == old(m.calls) + [c]
    ensures r.Err? ==> PinnedBy(meta, [c], Err(r.error))
    ensures r.Ok? ==> c == StatCall(meta.pid, Ok(r.value))
  {
    var first := m.ReadStartTime(meta.pid);
    c := StatCall(meta.pid, first);
    if first.Err? {
      r := Err(if first.error == NotExist then ProcessGone else OtherError(first.error.code));
    } else if meta.startTime != 0 && first.value != meta.startTime {
      r := Err(IdentityChanged);
    } else {
      r := Ok(first.value);
    }
  }

  // The second half of the sandwich: the start time is read again, and the
  // descriptor is given up unless it is unchanged.
  method Confirm(m: Machine, meta: ProcMeta, fd: int, before: nat) returns (r: Result<nat, PinError>, ghost c: SysCall)
    requires m.Valid() && (fd >= 0 ==> fd in m.fds)
    modifies m`k, m`calls, m`fds, m`facts
    ensures m.Valid() && Later(old(m.k), m.k)
    ensures r.Ok? ==> m.fds == old(m.fds) && m.facts == old(m.facts)
    ensures r.Ok? ==> r.value == before && meta.pid in m.k.table && m.k.table[meta.pid].start == before
    ensures r.Err? && fd >= 0 ==> m.fds == old(m.fds) - {fd} && m.facts == old(m.facts) + [Closed(fd, m.k)]
    ensures r.Err? && fd < 0 ==> m.fds == old(m.fds) && m.facts == old(m.facts)
    ensures r == Err(ProcessGone) ==> meta.pid !in m.k.table
    ensures r == Err(IdentityChanged) ==> meta.pid in m.k.table && m.k.table[meta.pid].start != before
    ensures m.calls == old(m.calls) + [c]
    ensures ReadAgain(meta.pid, before, fd, c, if r.Ok? then Ok(fd) else Err(r.error))
  {
    var second := m.ReadStartTime(meta.pid);
    c := StatCall(meta.pid, second);
    if second.Err? {
      Discard(m, fd);
      r := Err(if second.error == NotExist then ProcessGone else OtherError(second.error.code));
      return;
    }
    var after := second.value;
    if after != before {
      Discard(m, fd);
      r := Err(IdentityChanged);
      return;
    }
    r := Ok(after);
  }

  // A descriptor that was opened and closed again.
  lemma OpenedAndClosed(fds: map<int, Instance>, fd: int, who: Instance, facts: seq<Fact>, f: Fact, c: Fact)
    requires fd !in fds && f.Opened? && c.Closed?
    ensures fds[fd := who] - {fd} == fds && HandlesOnly(facts, facts + [f] + [c])
  {
  }

  // The pidfd is opened and the start time is read again. Whoever held the PID
  // at the first read is then the instance the pidfd names.
  method OpenAndConfirm(m: Machine, meta: ProcMeta, before: nat)
    returns (r: Result<int, PinError>, ghost made: seq<SysCall>)
    requires m.Valid() && meta.pid in m.k.table && m.k.table[meta.pid].start == before
    modifies m`k, m`calls, m`fds, m`facts
    ensures m.Valid() && Later(old(m.k), m.k)
    ensures r.Ok? ==> if r.value >= 0
      then r.value !in old(m.fds) && m.fds == old(m.fds)[r.value := old(m.k).table[meta.pid]]
        && OpenedOne(old(m.facts), m.facts, r.value, old(m.k).table[meta.pid])
      else r.value == -1 && !m.hasPidfd && m.fds == old(m.fds) && m.facts == old(m.facts)
    ensures r.Err? ==> LeftNothing(m, old(m.fds), old(m.facts))
    ensures r == Err(ProcessGone) ==> meta.pid !in m.k.table
    ensures r == Err(IdentityChanged) ==> meta.pid in m.k.table && m.k.table[meta.pid] !in old(m.k).used
    ensures m.calls == old(m.calls) + made && OpenedAndRead(meta.pid, before, made, r)
  {
    ghost var k1 := m.k;
    ghost var answer, c;
    r, answer := OpenPidfd(m, meta.pid);
    made := [OpenCall(meta.pid, answer)];
    if r.Err? {
      return;
    }
    var fd := r.value;
    ghost var k2, facts := m.k, m.facts;
    var confirmed;
    confirmed, c := Confirm(m, meta, fd, before);
    made := made + [c];
    OpenedThenRead(meta.pid, before, answer, fd, c, if confirmed.Ok? then Ok(fd) else Err(confirmed.error));
    if confirmed.Err? {
      if confirmed.error == IdentityChanged {
        PassedOn(k1, m.k, meta.pid);
      }
      if fd >= 0 {
        assert facts == old(m.facts) + [facts[|facts| - 1]];
        OpenedAndClosed(old(m.fds), fd, k2.table[meta.pid], old(m.facts), facts[|facts| - 1], Closed(fd, m.k));
      }
      r := Err(confirmed.error);
      return;
    }
    if fd >= 0 {
      Sandwich(k1, k2, m.k, meta.pid);
    }
  }

  lemma CallsJoin(before: seq<SysCall>, made: seq<SysCall>, more: seq<SysCall>)
    ensures before + made + more == before + (made + more)
  {
  }

  // The start time and the descriptor a pin ended with.
  function Ending(r: Result<LinuxController, PinError>): Result<(nat, int), PinError> {
    match r
    case Ok(c) => Ok((c.meta.startTime, c.fd))
    case Err(e) => Err(e)
  }

  // The start time is read, the pidfd is opened, and the start time is read again.
  method Sandwiched(m: Machine, meta: ProcMeta) returns (r: Result<LinuxController, PinError>, ghost made: seq<SysCall>)
    requires m.Valid()
    modifies m`k, m`calls, m`fds, m`facts, m`handedOut
    ensures m.Valid() && Later(old(m.k), m.k)
    ensures PinEnded(m, meta, r, old(m.k), old(m.fds), old(m.facts), old(m.handedOut))
    ensures r.Ok? ==> fresh(r.value)
    ensures m.calls == old(m.calls) + made && PinnedBy(meta, made, Ending(r))
  {
    ghost var read, more;
    var first, opening;
    first, read := FirstRead(m, meta);
    made := [read];
    if first.Err? {
      r := Err(first.error);
      return;
    }
    opening, more := OpenAndConfirm(m, meta, first.value);
    CallsJoin(old(m.calls), made, more);
    made := made + more;
    ReadThenOpened(meta, first.value, more, opening);
    if opening.Err? {
      r := Err(opening.error);
      return;
    }
    var c := HandOut(m, meta.(startTime := first.value), opening.value);
    r := Ok(c);
  }

  method Pin(m: Machine, meta: ProcMeta) returns (r: Result<LinuxController, PinError>, ghost made: seq<SysCall>)
    requires m.Valid()
    modifies m`k, m`calls, m`fds, m`facts, m`pins, m`handedOut
    ensures m.Valid() && Later(old(m.k), m.k)
    ensures PinEnded(m, meta, r, old(m.k), old(m.fds), old(m.facts), old(m.handedOut))
    ensures r.Ok? ==> fresh(r.value)
    ensures m.pins == old(m.pins) + [if r.Ok? then None else Some(r.error)]
    ensures m.calls == old(m.calls) + made && PinnedBy(meta, made, Ending(r))
  {
    r, made := Sandwiched(m, meta);
    m.pins := m.pins + [if r.Ok? then None else Some(r.error)];
  }
}
