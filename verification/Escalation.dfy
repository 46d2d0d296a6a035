// The escalation of one teardown as a state machine over the calls it makes.
// A log is the sequence of calls with the answers they got, so a statement about
// every accepted log is a statement about every controller and every probe.
module Escalation {
  import opened Model

  // Durations are in nanoseconds.
  const MS: int := 1_000_000

  datatype Options = Options(force: bool, timeout: int, hardWait: int, noConsoleWait: int)

  const DEFAULT_OPTIONS := Options(false, 3000 * MS, 1000 * MS, 500 * MS)

  datatype ProbeReply = Held | Free | ProbeFailed(code: int)

  datatype Call =
    | Probe(probe: ProbeReply)
    | Graceful(reply: Option<PinError>)
    | Hard(reply: Option<PinError>)
    | Lifecycle(life: Result<Lifecycle, int>)
    | Sleep(duration: int)

  datatype Outcome = Released | ZombieLeft | TimedOut | Changed | Denied | Failed

  datatype Cause = NoCause | FromController(error: PinError) | FromProbe(code: int)

  datatype Teardown = Teardown(outcome: Outcome, pid: nat, cause: Cause, gracefulSent: bool, usedHardKill: bool)

  function PollSchedule(i: nat): (d: int)
    ensures 25 * MS <= d <= 100 * MS
  {
    if i == 0 then 25 * MS else if i == 1 then 50 * MS else 100 * MS
  }

  datatype State =
    | Starting                                                          // about to probe for the first time
    | Asking                                                            // about to call Graceful
    | Waiting(hard: bool, i: nat, spent: int, budget: int, sent: bool)  // about to sleep
    | Slept(hard: bool, i: nat, spent: int, budget: int, sent: bool)    // about to probe again
    | Examining(released: bool, sent: bool)                             // about to call Lifecycle
    | Killing(sent: bool)                                               // about to call Hard
    | Done(result: Teardown)

  // The head of the wait loop.
  function WaitHead(pid: nat, hard: bool, i: nat, spent: int, budget: int, sent: bool): State {
    if spent < budget then Waiting(hard, i, spent, budget, sent)
    else if hard then Done(Teardown(TimedOut, pid, NoCause, sent, true))
    else Examining(false, sent)
  }

  // What a controller error that ends the run makes of the result.
  function Aborted(pid: nat, e: PinError, sent: bool, hard: bool): Teardown {
    Teardown(
      match e
        case IdentityChanged => Changed
        case PermissionDenied => Denied
        case _ => Failed,
      pid, FromController(e), sent, hard)
  }

  // The next state, if `c` is the call the state is about to make.
  function Step(o: Options, pid: nat, s: State, c: Call): Option<State> {
    match (s, c)
    case (Starting, Probe(r)) =>
      Some(match r
        case ProbeFailed(code) => Done(Teardown(Failed, pid, FromProbe(code), false, false))
        case Free => Done(Teardown(Released, pid, NoCause, false, false))
        case Held => if o.force then Killing(false) else Asking)
    case (Asking, Graceful(e)) =>
      Some(match e
        case None => WaitHead(pid, false, 0, 0, o.timeout, true)
        case Some(NoConsole) => WaitHead(pid, false, 0, 0, o.noConsoleWait, false)
        case Some(ProcessGone) => WaitHead(pid, false, 0, 0, o.timeout, false)
        case Some(error) => Done(Aborted(pid, error, false, false)))
    case (Waiting(hard, i, spent, budget, sent), Sleep(d)) =>
      if d == PollSchedule(i) then Some(Slept(hard, i, spent + d, budget, sent)) else None
    case (Slept(hard, i, spent, budget, sent), Probe(r)) =>
      Some(match r
        case ProbeFailed(code) => Done(Teardown(Failed, pid, FromProbe(code), sent, hard))
        case Free => if hard then Done(Teardown(Released, pid, NoCause, sent, true)) else Examining(true, sent)
        case Held => WaitHead(pid, hard, i + 1, spent, budget, sent))
    case (Examining(released, sent), Lifecycle(l)) =>
      Some(
        if l == Ok(Zombie) then Done(Teardown(ZombieLeft, pid, NoCause, sent, false))
        else if released then Done(Teardown(Released, pid, NoCause, sent, false))
        else Killing(sent))
    case (Killing(sent), Hard(e)) =>
      Some(match e
        case None => WaitHead(pid, true, 0, 0, o.hardWait, sent)
        case Some(ProcessGone) => WaitHead(pid, true, 0, 0, o.hardWait, sent)
        case Some(error) => Done(Aborted(pid, error, sent, true)))
    case _ => None
  }

  function After(o: Options, pid: nat, log: seq<Call>): Option<State> {
    if log == [] then Some(Starting)
    else
      var s := After(o, pid, log[..|log| - 1]);
      if s.None? then None else Step(o, pid, s.value, log[|log| - 1])
  }

  // The log is a complete run that ends with this result.
  predicate Accepts(o: Options, pid: nat, log: seq<Call>, result: Teardown) {
    After(o, pid, log) == Some(Done(result))
  }

  lemma AfterNext(o: Options, pid: nat, log: seq<Call>, c: Call)
    ensures After(o, pid, log + [c]) ==
      if After(o, pid, log).None? then None else Step(o, pid, After(o, pid, log).value, c)
  {
    assert (log + [c])[..|log|] == log;
  }

  // ---- measures of a log ----

  function Hards(log: seq<Call>): nat {
    if log == [] then 0 else Hards(log[..|log| - 1]) + if log[|log| - 1].Hard? then 1 else 0
  }

  function Probes(log: seq<Call>): nat {
    if log == [] then 0 else Probes(log[..|log| - 1]) + if log[|log| - 1].Probe? then 1 else 0
  }

  function Lifecycles(log: seq<Call>): nat {
    if log == [] then 0 else Lifecycles(log[..|log| - 1]) + if log[|log| - 1].Lifecycle? then 1 else 0
  }

  function SleptFor(log: seq<Call>): int {
    if log == [] then 0
    else SleptFor(log[..|log| - 1]) + if log[|log| - 1].Sleep? then log[|log| - 1].duration else 0
  }

  // The time slept since the last Graceful or Hard call.
  function SleptSince(log: seq<Call>): int {
    if log == [] then 0
    else match log[|log| - 1]
      case Graceful(_) => 0
      case Hard(_) => 0
      case Sleep(d) => SleptSince(log[..|log| - 1]) + d
      case _ => SleptSince(log[..|log| - 1])
  }

  function LastProbe(log: seq<Call>): Option<ProbeReply> {
    if log == [] then None
    else if log[|log| - 1].Probe? then Some(log[|log| - 1].probe)
    else LastProbe(log[..|log| - 1])
  }

  predicate AllHeld(log: seq<Call>) {
    forall i :: 0 <= i < |log| && log[i].Probe? ==> log[i].probe == Held
  }

  predicate NoZombie(log: seq<Call>) {
    forall i :: 0 <= i < |log| && log[i].Lifecycle? ==> log[i].life != Ok(Zombie)
  }

  // ---- the time a wait takes ----

  // The time the first i rounds of a wait sleep.
  function Spent(i: nat): int {
    if i == 0 then 0 else Spent(i - 1) + PollSchedule(i - 1)
  }

  lemma {:induction false} SpentClosed(i: nat)
    ensures Spent(i) == if i == 0 then 0 else if i == 1 then 25 * MS else 75 * MS + (i - 2) * 100 * MS
  {
    if i > 0 {
      SpentClosed(i - 1);
    }
  }

  // The number of rounds a wait makes when it never sees the endpoint free.
  function Rounds(budget: int): nat {
    if budget <= 0 then 0
    else if budget <= 25 * MS then 1
    else if budget <= 75 * MS then 2
    else 2 + (budget - 75 * MS + 100 * MS - 1) / (100 * MS)
  }

  function Max(a: int, b: int): int {
    if a < b then b else a
  }

  // Rounds is the first round count that uses up the budget, and a wait that
  // makes them all oversleeps by less than 100 ms.
  lemma RoundsUseUpBudget(budget: int, i: nat)
    ensures Spent(i) < budget <==> i < Rounds(budget)
    ensures budget <= Spent(Rounds(budget)) < Max(budget, 0) + 100 * MS
  {
    SpentClosed(i);
    SpentClosed(Rounds(budget));
  }

  lemma SpentMonotone(i: nat, j: nat)
    requires i <= j
    ensures Spent(i) <= Spent(j)
  {
    SpentClosed(i);
    SpentClosed(j);
  }

  lemma RoundsMonotone(a: int, b: int)
    requires a <= b
    ensures Rounds(a) <= Rounds(b)
  {
  }

  // No graceful stage polls for more rounds than this.
  function GraceRounds(o: Options): nat {
    if o.force then 0 else Rounds(Max(o.timeout, o.noConsoleWait))
  }

  // ---- the invariant of every run ----

  ghost predicate GraceWait(o: Options, log: seq<Call>, budget: int, sent: bool) {
    && !o.force && |log| >= 2
    && match log[1]
       case Graceful(None) => budget == o.timeout && sent
       case Graceful(Some(NoConsole)) => budget == o.noConsoleWait && !sent
       case Graceful(Some(ProcessGone)) => budget == o.timeout && !sent
       case _ => false
  }

  ghost predicate Fair(o: Options, log: seq<Call>, sent: bool) {
    && |log| >= 1 && log[0] == Probe(Held)
    && (o.force ==> !sent)
    && (!o.force ==> |log| >= 2 && log[1].Graceful? && (sent <==> log[1].reply == None))
  }

  ghost predicate Quiet(log: seq<Call>) {
    Hards(log) == 0 && Lifecycles(log) == 0 && SleptFor(log) == 0 && Probes(log) == 1
  }

  // The graceful wait that led here ran through its whole budget.
  ghost predicate UsedUp(o: Options, log: seq<Call>) {
    exists budget, sent :: GraceWait(o, log, budget, sent) && SleptSince(log) == Spent(Rounds(budget))
  }

  // The log has slept and probed no more than the graceful stage allows, plus
  // `spent` and `probes` after the hard kill.
  ghost predicate Within(o: Options, log: seq<Call>, hard: bool, spent: int, probes: nat) {
    && SleptFor(log) <= Spent(GraceRounds(o)) + spent
    && Probes(log) <= 1 + GraceRounds(o) + probes
  }

  ghost predicate Round(o: Options, log: seq<Call>, hard: bool, i: nat, spent: int, budget: int, sent: bool) {
    && Fair(o, log, sent) && AllHeld(log) && NoZombie(log) && LastProbe(log) == Some(Held)
    && Hards(log) == (if hard then 1 else 0) && SleptSince(log) == spent
    && Lifecycles(log) == (if hard && !o.force then 1 else 0)
    && (if hard then budget == o.hardWait && Within(o, log, true, spent, i)
        else GraceWait(o, log, budget, sent) && SleptFor(log) == spent && Probes(log) == 1 + i)
  }

  ghost predicate Finished(o: Options, log: seq<Call>, r: Teardown) {
    && |log| > 0 && log[0].Probe?
    && Hards(log) == (if r.usedHardKill then 1 else 0)
    && (r.gracefulSent <==> |log| > 1 && log[1] == Graceful(None))
    && Lifecycles(log) <= 1
    && (if r.usedHardKill then Within(o, log, true, Spent(Rounds(o.hardWait)), Rounds(o.hardWait))
        else Within(o, log, false, 0, 0))
    && match r.outcome
       case Released => LastProbe(log) == Some(Free) && r.cause == NoCause
       case ZombieLeft => log[|log| - 1] == Lifecycle(Ok(Zombie)) && !r.usedHardKill && r.cause == NoCause
       case TimedOut =>
        r.usedHardKill && AllHeld(log) && r.cause == NoCause && SleptSince(log) == Spent(Rounds(o.hardWait))
         && (if o.hardWait > 0 then log[|log| - 1] == Probe(Held) else log[|log| - 1].Hard?)
       case Changed => log[|log| - 1] in {Graceful(Some(IdentityChanged)), Hard(Some(IdentityChanged))}
       case Denied => log[|log| - 1] in {Graceful(Some(PermissionDenied)), Hard(Some(PermissionDenied))}
       case Failed => match log[|log| - 1]
         case Probe(ProbeFailed(code)) => r.cause == FromProbe(code)
         case Graceful(Some(OtherError(code))) => r.cause == FromController(OtherError(code))
         case Hard(Some(error)) => r.cause == FromController(error) && (error.NoConsole? || error.OtherError?)
         case _ => false
  }

  // What a state says about the log that led to it.
  ghost predicate Invariant(o: Options, log: seq<Call>, s: State) {
    && (forall i :: 0 <= i < |log| && log[i].Graceful? ==> i == 1 && !o.force)
    && match s
       case Starting => log == []
       case Asking => !o.force && log == [Probe(Held)] && Quiet(log)
       case Waiting(hard, i, spent, budget, sent) =>
         Round(o, log, hard, i, spent, budget, sent) && spent == Spent(i) && i < Rounds(budget)
       case Slept(hard, i, spent, budget, sent) =>
         Round(o, log, hard, i, spent, budget, sent) && spent == Spent(i + 1) && i < Rounds(budget)
       case Examining(released, sent) =>
         && Fair(o, log, sent) && !o.force && Hards(log) == 0 && Lifecycles(log) == 0
         && Within(o, log, false, 0, 0)
         && LastProbe(log) == Some(if released then Free else Held)
         && (!released ==> AllHeld(log) && NoZombie(log) && UsedUp(o, log))
       case Killing(sent) =>
         && Fair(o, log, sent) && Hards(log) == 0 && AllHeld(log) && NoZombie(log) && LastProbe(log) == Some(Held)
         && (if o.force then log == [Probe(Held)] && Quiet(log) else Lifecycles(log) == 1)
         && Within(o, log, false, 0, 0)
       case Done(r) => Finished(o, log, r)
  }

  lemma Measures(log: seq<Call>, c: Call)
    ensures Hards(log + [c]) == Hards(log) + if c.Hard? then 1 else 0
    ensures Probes(log + [c]) == Probes(log) + if c.Probe? then 1 else 0
    ensures Lifecycles(log + [c]) == Lifecycles(log) + if c.Lifecycle? then 1 else 0
    ensures SleptFor(log + [c]) == SleptFor(log) + if c.Sleep? then c.duration else 0
    ensures SleptSince(log + [c]) == match c
      case Graceful(_) => 0
      case Hard(_) => 0
      case Sleep(d) => SleptSince(log) + d
      case _ => SleptSince(log)
    ensures LastProbe(log + [c]) == if c.Probe? then Some(c.probe) else LastProbe(log)
    ensures AllHeld(log + [c]) <==> AllHeld(log) && (c.Probe? ==> c.probe == Held)
    ensures NoZombie(log + [c]) <==> NoZombie(log) && (c.Lifecycle? ==> c.life != Ok(Zombie))
  {
    assert (log + [c])[..|log|] == log;
    assert AllHeld(log + [c]) ==> AllHeld(log) by {
      assert forall i :: 0 <= i < |log| ==> log[i] == (log + [c])[i];
    }
    assert NoZombie(log + [c]) ==> NoZombie(log) by {
      assert forall i :: 0 <= i < |log| ==> log[i] == (log + [c])[i];
    }
  }

  lemma WaitHeadKeepsInvariant(o: Options, pid: nat, log: seq<Call>, hard: bool, i: nat, spent: int, budget: int,
      sent: bool)
    requires forall j :: 0 <= j < |log| && log[j].Graceful? ==> j == 1 && !o.force
    requires Round(o, log, hard, i, spent, budget, sent) && spent == Spent(i) && i <= Rounds(budget)
    requires hard ==> if i == 0 then log[|log| - 1].Hard? else log[|log| - 1] == Probe(Held)
    ensures Invariant(o, log, WaitHead(pid, hard, i, spent, budget, sent))
  {
    RoundsUseUpBudget(budget, i);
    if !hard {
      RoundsMonotone(budget, Max(o.timeout, o.noConsoleWait));
      SpentMonotone(i, GraceRounds(o));
    }
  }

  lemma AskingKeepsInvariant(o: Options, pid: nat, log: seq<Call>, e: Option<PinError>)
    requires Invariant(o, log, Asking)
    ensures Invariant(o, log + [Graceful(e)], Step(o, pid, Asking, Graceful(e)).value)
  {
    Measures(log, Graceful(e));
    SpentMonotone(0, GraceRounds(o));
    if e == None || e == Some(NoConsole) || e == Some(ProcessGone) {
      WaitHeadKeepsInvariant(o, pid, log + [Graceful(e)], false, 0, 0,
        if e == Some(NoConsole) then o.noConsoleWait else o.timeout, e == None);
    }
  }

  lemma SleptKeepsInvariant(o: Options, pid: nat, log: seq<Call>, s: State, r: ProbeReply)
    requires s.Slept? && Invariant(o, log, s)
    ensures Invariant(o, log + [Probe(r)], Step(o, pid, s, Probe(r)).value)
  {
    var Slept(hard, i, spent, budget, sent) := s;
    Measures(log, Probe(r));
    SpentMonotone(i + 1, Rounds(budget));
    if !hard {
      RoundsMonotone(budget, Max(o.timeout, o.noConsoleWait));
      SpentMonotone(i + 1, GraceRounds(o));
    }
    if r == Held {
      WaitHeadKeepsInvariant(o, pid, log + [Probe(r)], hard, i + 1, spent, budget, sent);
    }
  }

  lemma KillingKeepsInvariant(o: Options, pid: nat, log: seq<Call>, sent: bool, e: Option<PinError>)
    requires Invariant(o, log, Killing(sent))
    ensures Invariant(o, log + [Hard(e)], Step(o, pid, Killing(sent), Hard(e)).value)
  {
    Measures(log, Hard(e));
    SpentMonotone(0, Rounds(o.hardWait));
    if e == None || e == Some(ProcessGone) {
      WaitHeadKeepsInvariant(o, pid, log + [Hard(e)], true, 0, 0, o.hardWait, sent);
    }
  }

  lemma WaitingKeepsInvariant(o: Options, pid: nat, log: seq<Call>, s: State, d: int)
    requires s.Waiting? && Invariant(o, log, s) && d == PollSchedule(s.i)
    ensures Invariant(o, log + [Sleep(d)], Step(o, pid, s, Sleep(d)).value)
  {
    Measures(log, Sleep(d));
  }

  lemma ExaminingKeepsInvariant(o: Options, pid: nat, log: seq<Call>, s: State, l: Result<Lifecycle, int>)
    requires s.Examining? && Invariant(o, log, s)
    ensures Invariant(o, log + [Lifecycle(l)], Step(o, pid, s, Lifecycle(l)).value)
  {
    Measures(log, Lifecycle(l));
  }

  lemma StepKeepsInvariant(o: Options, pid: nat, log: seq<Call>, s: State, c: Call)
    requires Invariant(o, log, s) && Step(o, pid, s, c).Some?
    ensures Invariant(o, log + [c], Step(o, pid, s, c).value)
  {
    match (s, c)
    case (Starting, Probe(r)) =>
      Measures([], c);
      SpentMonotone(0, GraceRounds(o));
    case (Asking, Graceful(e)) => AskingKeepsInvariant(o, pid, log, e);
    case (Waiting(_, _, _, _, _), Sleep(d)) => WaitingKeepsInvariant(o, pid, log, s, d);
    case (Slept(_, _, _, _, _), Probe(r)) => SleptKeepsInvariant(o, pid, log, s, r);
    case (Examining(_, _), Lifecycle(l)) => ExaminingKeepsInvariant(o, pid, log, s, l);
    case (Killing(sent), Hard(e)) => KillingKeepsInvariant(o, pid, log, sent, e);
    case _ =>
  }

  lemma {:induction false} InvariantHolds(o: Options, pid: nat, log: seq<Call>)
    requires After(o, pid, log).Some?
    ensures Invariant(o, log, After(o, pid, log).value)
  {
    if log != [] {
      var init, c := log[..|log| - 1], log[|log| - 1];
      InvariantHolds(o, pid, init);
      StepKeepsInvariant(o, pid, init, After(o, pid, init).value, c);
      assert log == init + [c];
    }
  }

  // ---- runs and their prefixes ----

  lemma {:induction false} PrefixRuns(o: Options, pid: nat, log: seq<Call>, k: nat)
    requires k <= |log| && After(o, pid, log).Some?
    ensures After(o, pid, log[..k]).Some?
    ensures k < |log| ==> After(o, pid, log[..k + 1]) == Step(o, pid, After(o, pid, log[..k]).value, log[k])
    ensures k < |log| ==> After(o, pid, log[..k + 1]).Some?
  {
    if k == |log| {
      assert log[..k] == log;
    } else {
      assert log[..k + 1][..k] == log[..k];
      if k + 1 == |log| {
        assert log[..k + 1] == log;
      } else {
        PrefixRuns(o, pid, log[..|log| - 1], k);
        assert log[..|log| - 1][..k] == log[..k];
        assert log[..|log| - 1][..k + 1] == log[..k + 1];
      }
    }
  }

  lemma DoneIsFinal(o: Options, pid: nat, log: seq<Call>, k: nat)
    requires k <= |log| && After(o, pid, log).Some? && After(o, pid, log[..k]).Some?
    requires After(o, pid, log[..k]).value.Done?
    ensures k == |log|
  {
    if k < |log| {
      PrefixRuns(o, pid, log, k);
    }
  }

  // ---- what holds of every run ----

  lemma {:induction false} PidIsKept(o: Options, pid: nat, log: seq<Call>)
    requires After(o, pid, log).Some?
    ensures After(o, pid, log).value.Done? ==> After(o, pid, log).value.result.pid == pid
  {
    if log != [] {
      PidIsKept(o, pid, log[..|log| - 1]);
    }
  }

  // Graceful is called at most once, and only as the second call; Hard at most
  // once and after it; Lifecycle at most once. The flags record the calls.
  lemma CallDiscipline(o: Options, pid: nat, log: seq<Call>, r: Teardown)
    requires Accepts(o, pid, log, r)
    ensures log != [] && log[0].Probe?
    ensures forall i :: 0 <= i < |log| && log[i].Graceful? ==> i == 1 && !o.force
    ensures Hards(log) <= 1 && Lifecycles(log) <= 1
    ensures forall i, j :: 0 <= i < |log| && 0 <= j < |log| && log[i].Graceful? && log[j].Hard? ==> i < j
    ensures r.usedHardKill <==> Hards(log) == 1
    ensures r.gracefulSent <==> Graceful(None) in log
    ensures r.pid == pid
  {
    InvariantHolds(o, pid, log);
    PidIsKept(o, pid, log);
  }

  // Nothing is called after an identity or permission error, and the run reports it.
  lemma FatalErrorsEndTheRun(o: Options, pid: nat, log: seq<Call>, r: Teardown, i: nat, e: PinError)
    requires Accepts(o, pid, log, r) && i < |log|
    requires e.IdentityChanged? || e.PermissionDenied?
    requires log[i] == Graceful(Some(e)) || log[i] == Hard(Some(e))
    ensures i == |log| - 1
    ensures r.outcome == (if e.IdentityChanged? then Changed else Denied) && r.cause == FromController(e)
    ensures log[i].Graceful? ==> !r.gracefulSent && !r.usedHardKill
  {
    PrefixRuns(o, pid, log, i);
    PrefixRuns(o, pid, log, i + 1);
    DoneIsFinal(o, pid, log, i + 1);
    assert log[..i + 1] == log;
    InvariantHolds(o, pid, log[..i]);
  }

  // Whatever is signalled, a probe has said held before; and the hard kill comes
  // only after every probe said held and no zombie was seen.
  lemma SignalsOnlyWhileHeld(o: Options, pid: nat, log: seq<Call>, i: nat)
    requires After(o, pid, log).Some? && i < |log| && (log[i].Graceful? || log[i].Hard?)
    ensures i > 0 && log[0] == Probe(Held) && AllHeld(log[..i])
    ensures log[i].Hard? ==> NoZombie(log[..i]) && (!o.force ==> Lifecycles(log[..i]) == 1)
  {
    PrefixRuns(o, pid, log, i);
    InvariantHolds(o, pid, log[..i]);
    assert log[i].Hard? ==> After(o, pid, log[..i]).value.Killing?;
    assert log[i].Graceful? ==> After(o, pid, log[..i]).value.Asking?;
  }

  lemma LastCallDecides(o: Options, pid: nat, log: seq<Call>, r: Teardown)
    requires Accepts(o, pid, log, r)
    ensures LastProbe(log) == Some(Free) ==> r.outcome == Released || r.outcome == ZombieLeft
    ensures log[|log| - 1] == Lifecycle(Ok(Zombie)) ==> r.outcome == ZombieLeft
  {
    var init, c := log[..|log| - 1], log[|log| - 1];
    InvariantHolds(o, pid, init);
    assert log == init + [c];
    Measures(init, c);
    assert Step(o, pid, After(o, pid, init).value, c) == Some(Done(r));
    match After(o, pid, init).value
    case Starting =>
    case Asking =>
    case Waiting(_, _, _, _, _) =>
    case Slept(_, _, _, _, _) =>
    case Examining(_, _) =>
    case Killing(_) =>
    case Done(_) =>
  }

  // What each outcome says about the last answers. TimedOut without a probe
  // after the kill needs a hard wait that is not positive.
  lemma OutcomeMeaning(o: Options, pid: nat, log: seq<Call>, r: Teardown)
    requires Accepts(o, pid, log, r)
    ensures r.outcome == Released ==> LastProbe(log) == Some(Free)
    ensures LastProbe(log) == Some(Free) ==> r.outcome == Released || r.outcome == ZombieLeft
    ensures r.outcome == ZombieLeft <==> log[|log| - 1] == Lifecycle(Ok(Zombie))
    ensures r.outcome == TimedOut ==> r.usedHardKill && AllHeld(log)
    ensures r.outcome == TimedOut ==> (log[|log| - 1] == Probe(Held) <==> o.hardWait > 0)
  {
    InvariantHolds(o, pid, log);
    LastCallDecides(o, pid, log, r);
  }

  // The last probe of a run that reports a zombie may have said held.
  lemma ZombieMayFollowHeld()
    ensures exists o: Options, log, r ::
      Accepts(o, 7, log, r) && r.outcome == ZombieLeft && LastProbe(log) == Some(Held)
  {
    var o := Options(false, 0, 0, 0);
    var log := [Probe(Held), Graceful(None), Lifecycle(Ok(Zombie))];
    assert log[..2][..1][..0] == [] && log[..2][..1] == [Probe(Held)] && log[..2] == [Probe(Held), Graceful(None)];
    AfterNext(o, 7, [], Probe(Held));
    AfterNext(o, 7, [Probe(Held)], Graceful(None));
    AfterNext(o, 7, [Probe(Held), Graceful(None)], Lifecycle(Ok(Zombie)));
    assert [] + [Probe(Held)] == [Probe(Held)];
    assert [Probe(Held)] + [Graceful(None)] == log[..2];
    assert log[..2] + [Lifecycle(Ok(Zombie))] == log;
    assert LastProbe(log[..2][..1]) == Some(Held);
    assert LastProbe(log[..2]) == Some(Held);
    assert Accepts(o, 7, log, Teardown(ZombieLeft, 7, NoCause, true, false));
  }

  lemma AfterFour(o: Options, pid: nat, c0: Call, c1: Call, c2: Call, c3: Call)
    ensures After(o, pid, [c0, c1, c2, c3]) ==
      var s1 := Step(o, pid, Starting, c0);
      var s2 := if s1.None? then None else Step(o, pid, s1.value, c1);
      var s3 := if s2.None? then None else Step(o, pid, s2.value, c2);
      if s3.None? then None else Step(o, pid, s3.value, c3)
  {
    AfterNext(o, pid, [], c0);
    AfterNext(o, pid, [c0], c1);
    AfterNext(o, pid, [c0, c1], c2);
    AfterNext(o, pid, [c0, c1, c2], c3);
    assert [] + [c0] == [c0] && [c0] + [c1] == [c0, c1];
    assert [c0, c1] + [c2] == [c0, c1, c2] && [c0, c1, c2] + [c3] == [c0, c1, c2, c3];
  }

  // An identity change may be reported after a signal was delivered.
  lemma ChangedMayFollowASignal()
    ensures exists o: Options, log, r :: Accepts(o, 7, log, r) && r.outcome == Changed && r.gracefulSent
  {
    var o := Options(false, 0, 0, 0);
    var c0, c1, c2, c3 := Probe(Held), Graceful(None), Lifecycle(Ok(Alive)), Hard(Some(IdentityChanged));
    AfterFour(o, 7, c0, c1, c2, c3);
    assert Accepts(o, 7, [c0, c1, c2, c3], Teardown(Changed, 7, FromController(IdentityChanged), true, true));
  }

  // A graceful wait that sees the endpoint held i times is under way.
  lemma {:induction false} HeldRounds(o: Options, pid: nat, i: nat) returns (log: seq<Call>)
    requires !o.force && i <= Rounds(o.timeout)
    ensures After(o, pid, log) == Some(WaitHead(pid, false, i, Spent(i), o.timeout, true))
    ensures LastProbe(log) == Some(Held)
    ensures forall c :: c in log ==> c.Probe? || c.Sleep? || c == Graceful(None)
  {
    if i == 0 {
      log := [Probe(Held)] + [Graceful(None)];
      AfterNext(o, pid, [], Probe(Held));
      AfterNext(o, pid, [Probe(Held)], Graceful(None));
      Measures([], Probe(Held));
      Measures([Probe(Held)], Graceful(None));
      assert [] + [Probe(Held)] == [Probe(Held)];
    } else {
      var init := HeldRounds(o, pid, i - 1);
      RoundsUseUpBudget(o.timeout, i - 1);
      var nap := Sleep(PollSchedule(i - 1));
      log := init + [nap] + [Probe(Held)];
      AfterNext(o, pid, init, nap);
      AfterNext(o, pid, init + [nap], Probe(Held));
      Measures(init + [nap], Probe(Held));
    }
  }

  // Whatever the budgets, the whole graceful wait may see the endpoint held.
  lemma HeldThroughout(o: Options, pid: nat, l: Result<Lifecycle, int>) returns (log: seq<Call>)
    requires !o.force
    ensures After(o, pid, log) == Step(o, pid, Examining(false, true), Lifecycle(l))
    ensures LastProbe(log) == Some(Held)
    ensures log != [] && log[|log| - 1] == Lifecycle(l)
    ensures forall c :: c in log ==> c.Probe? || c.Sleep? || c == Graceful(None) || c == Lifecycle(l)
  {
    var init := HeldRounds(o, pid, Rounds(o.timeout));
    RoundsUseUpBudget(o.timeout, 0);
    log := init + [Lifecycle(l)];
    AfterNext(o, pid, init, Lifecycle(l));
    Measures(init, Lifecycle(l));
  }

  ghost predicate ZombieFollowsFree(o: Options, pid: nat) {
    forall log, r :: Accepts(o, pid, log, r) && r.outcome == ZombieLeft ==> LastProbe(log) == Some(Free)
  }

  lemma ForceSeesNoZombie(o: Options, pid: nat, log: seq<Call>, r: Teardown)
    requires Accepts(o, pid, log, r) && o.force
    ensures r.outcome != ZombieLeft
  {
    InvariantHolds(o, pid, log[..|log| - 1]);
    OutcomeMeaning(o, pid, log, r);
  }

  // A reported zombie always follows a free probe only where none is ever reported.
  lemma ZombieFollowsFreeIff(o: Options, pid: nat)
    ensures ZombieFollowsFree(o, pid) <==> o.force
  {
    if o.force {
      forall log, r | Accepts(o, pid, log, r)
        ensures r.outcome != ZombieLeft
      {
        ForceSeesNoZombie(o, pid, log, r);
      }
    } else {
      var log := HeldThroughout(o, pid, Ok(Zombie));
      assert Accepts(o, pid, log, Teardown(ZombieLeft, pid, NoCause, true, false));
    }
  }

  // Without a hard wait a timeout is reported right after the kill, without a
  // probe.
  lemma TimeoutMayBeUnprobed(o: Options, pid: nat)
    requires o.force && o.hardWait <= 0
    ensures Accepts(o, pid, [Probe(Held), Hard(None)], Teardown(TimedOut, pid, NoCause, false, true))
  {
    AfterNext(o, pid, [], Probe(Held));
    AfterNext(o, pid, [Probe(Held)], Hard(None));
    assert [] + [Probe(Held)] == [Probe(Held)] && [Probe(Held)] + [Hard(None)] == [Probe(Held), Hard(None)];
  }

  // ---- time ----

  // A run sleeps less than the larger graceful budget plus the hard budget plus
  // 200 ms, and probes no more often than that allows.
  lemma RunIsBounded(o: Options, pid: nat, log: seq<Call>, r: Teardown)
    requires Accepts(o, pid, log, r)
    ensures SleptFor(log) <= Spent(GraceRounds(o)) + Spent(Rounds(o.hardWait))
    ensures SleptFor(log) < Max(Max(o.timeout, o.noConsoleWait), 0) + Max(o.hardWait, 0) + 200 * MS
    ensures Probes(log) <= 1 + GraceRounds(o) + Rounds(o.hardWait)
  {
    InvariantHolds(o, pid, log);
    SpentMonotone(0, Rounds(o.hardWait));
    RoundsUseUpBudget(Max(o.timeout, o.noConsoleWait), 0);
    RoundsUseUpBudget(o.hardWait, 0);
  }

  // With the default budgets: at most 3075 ms, then 1075 ms, and 45 probes.
  lemma DefaultRunIsBounded(pid: nat, log: seq<Call>, r: Teardown)
    requires Accepts(DEFAULT_OPTIONS, pid, log, r)
    ensures SleptFor(log) <= 3075 * MS + 1075 * MS && Probes(log) <= 45
  {
    RunIsBounded(DEFAULT_OPTIONS, pid, log, r);
    SpentClosed(32);
    SpentClosed(12);
  }

  // A wait that never sees the endpoint free sleeps at least its budget and
  // less than 100 ms more: the hard wait of a run that times out, ...
  lemma HardWaitIsUsedUp(o: Options, pid: nat, log: seq<Call>, r: Teardown)
    requires Accepts(o, pid, log, r) && r.outcome == TimedOut
    ensures o.hardWait <= SleptSince(log) < Max(o.hardWait, 0) + 100 * MS
  {
    InvariantHolds(o, pid, log);
    RoundsUseUpBudget(o.hardWait, 0);
  }

  // with the default budget after 1075 ms, ...
  lemma DefaultTimeout(pid: nat, log: seq<Call>, r: Teardown)
    requires Accepts(DEFAULT_OPTIONS, pid, log, r) && r.outcome == TimedOut
    ensures SleptSince(log) == 1075 * MS
  {
    InvariantHolds(DEFAULT_OPTIONS, pid, log);
    SpentClosed(12);
  }

  // ... and the graceful wait of a run that goes on to look at the process while
  // the endpoint is held.
  lemma GraceWaitIsUsedUp(o: Options, pid: nat, log: seq<Call>, i: nat)
    requires After(o, pid, log).Some? && i < |log| && log[i].Lifecycle? && LastProbe(log[..i]) == Some(Held)
    ensures i > 1 && log[1].Graceful?
    ensures var budget := if log[1] == Graceful(Some(NoConsole)) then o.noConsoleWait else o.timeout;
      budget <= SleptSince(log[..i]) < Max(budget, 0) + 100 * MS
  {
    PrefixRuns(o, pid, log, i);
    InvariantHolds(o, pid, log[..i]);
    assert After(o, pid, log[..i]).value.Examining?;
    RoundsUseUpBudget(o.noConsoleWait, 0);
    RoundsUseUpBudget(o.timeout, 0);
  }

  // ---- the same answers give the same run ----

  // The answers a controller and a probe will give: the n-th probe, and the one
  // call each that can be made of the rest.
  datatype Answers = Answers(
    probes: nat -> ProbeReply, graceful: Option<PinError>, hard: Option<PinError>, life: Result<Lifecycle, int>)

  // c got the answer due to it after `probes` earlier probes.
  predicate Answered(a: Answers, probes: nat, c: Call) {
    match c
    case Probe(r) => r == a.probes(probes)
    case Graceful(e) => e == a.graceful
    case Hard(e) => e == a.hard
    case Lifecycle(l) => l == a.life
    case Sleep(_) => true
  }

  predicate Follows(a: Answers, log: seq<Call>) {
    forall i :: 0 <= i < |log| ==> Answered(a, Probes(log[..i]), log[i])
  }

  lemma SameAnswerSameCall(o: Options, pid: nat, s: State, a: Answers, probes: nat, c: Call, c': Call)
    requires Step(o, pid, s, c).Some? && Step(o, pid, s, c').Some?
    requires Answered(a, probes, c) && Answered(a, probes, c')
    ensures c == c'
  {
  }

  lemma NextCallSame(o: Options, pid: nat, a: Answers, log: seq<Call>, other: seq<Call>, k: nat)
    requires After(o, pid, log).Some? && After(o, pid, other).Some?
    requires k < |log| && k < |other| && log[..k] == other[..k]
    requires Answered(a, Probes(log[..k]), log[k]) && Answered(a, Probes(other[..k]), other[k])
    ensures log[k] == other[k]
  {
    PrefixRuns(o, pid, log, k);
    PrefixRuns(o, pid, other, k);
    SameAnswerSameCall(o, pid, After(o, pid, log[..k]).value, a, Probes(log[..k]), log[k], other[k]);
  }

  lemma PrefixesGrow(log: seq<Call>, other: seq<Call>, k: nat)
    requires 0 < k <= |log| && k <= |other| && log[..k - 1] == other[..k - 1] && log[k - 1] == other[k - 1]
    ensures log[..k] == other[..k]
  {
    assert log[..k] == log[..k - 1] + [log[k - 1]];
    assert other[..k] == other[..k - 1] + [other[k - 1]];
  }

  lemma {:induction false} SameAnswersSamePrefix(o: Options, pid: nat, a: Answers, log: seq<Call>, other: seq<Call>,
      k: nat)
    requires After(o, pid, log).Some? && After(o, pid, other).Some?
    requires Follows(a, log) && Follows(a, other) && k <= |log| && k <= |other|
    ensures log[..k] == other[..k]
  {
    if k > 0 {
      SameAnswersSamePrefix(o, pid, a, log, other, k - 1);
      NextCallSame(o, pid, a, log, other, k - 1);
      PrefixesGrow(log, other, k);
    }
  }

  // Run is a function of the answers it gets.
  lemma SameAnswersSameRun(o: Options, pid: nat, a: Answers, log: seq<Call>, r: Teardown, other: seq<Call>,
      r': Teardown)
    requires Accepts(o, pid, log, r) && Accepts(o, pid, other, r')
    requires Follows(a, log) && Follows(a, other)
    ensures log == other && r == r'
  {
    if |log| <= |other| {
      SameAnswersSamePrefix(o, pid, a, log, other, |log|);
      assert log[..|log|] == log;
      DoneIsFinal(o, pid, other, |log|);
      assert other[..|other|] == other;
    } else {
      SameAnswersSamePrefix(o, pid, a, log, other, |other|);
      assert other[..|other|] == other;
      DoneIsFinal(o, pid, log, |other|);
    }
  }
}
