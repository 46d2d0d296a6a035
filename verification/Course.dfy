// The course of a run told from its calls alone, without the states of the
// escalation: what is due after the calls made so far, and that the accepted logs
// are exactly those that always do what is due.
module Course {
  import opened Model
  import opened Escalation

  // The next call, or the end of the run.
  datatype Due =
    | DueProbe
    | DueGraceful
    | DueHard
    | DueLifecycle
    | DueSleep(duration: int)
    | End(outcome: Outcome, cause: Cause)

  predicate Killed(log: seq<Call>) {
    exists i :: 0 <= i < |log| && log[i].Hard?
  }

  // How an error of the controller ends a run.
  function EndedBy(e: PinError): Due {
    match e
    case IdentityChanged => End(Changed, FromController(e))
    case PermissionDenied => End(Denied, FromController(e))
    case ProcessGone => End(Failed, FromController(e))
    case NoConsole => End(Failed, FromController(e))
    case OtherError(_) => End(Failed, FromController(e))
  }

  // The budget of the wait that the log is in.
  function BudgetOf(o: Options, log: seq<Call>): int {
    if Killed(log) then o.hardWait
    else if |log| > 1 && log[1] == Graceful(Some(NoConsole)) then o.noConsoleWait
    else o.timeout
  }

  // A wait sleeps 25 ms, then 50 ms, then 100 ms each time, until its budget is used up.
  function DueInWait(o: Options, log: seq<Call>): Due {
    var slept := SleptSince(log);
    if slept < BudgetOf(o, log) then
      DueSleep(if slept == 0 then 25_000_000 else if slept == 25_000_000 then 50_000_000 else 100_000_000)
    else if Killed(log) then End(TimedOut, NoCause)
    else DueLifecycle
  }

  function DueAfter(o: Options, log: seq<Call>): Due {
    if log == [] then DueProbe
    else
      match log[|log| - 1]
      case Probe(ProbeFailed(code)) => End(Failed, FromProbe(code))
      case Probe(Free) => if |log| == 1 || Killed(log) then End(Released, NoCause) else DueLifecycle
      case Probe(Held) =>
        if |log| > 1 then DueInWait(o, log) else if o.force then DueHard else DueGraceful
      case Graceful(e) =>
        if e == None || e == Some(NoConsole) || e == Some(ProcessGone) then DueInWait(o, log) else EndedBy(e.value)
      case Hard(e) => if e == None || e == Some(ProcessGone) then DueInWait(o, log) else EndedBy(e.value)
      case Sleep(_) => DueProbe
      case Lifecycle(l) =>
        if l == Ok(Zombie) then End(ZombieLeft, NoCause)
        else if LastProbe(log) == Some(Free) then End(Released, NoCause)
        else DueHard
  }

  predicate Meets(c: Call, d: Due) {
    match d
    case DueProbe => c.Probe?
    case DueGraceful => c.Graceful?
    case DueHard => c.Hard?
    case DueLifecycle => c.Lifecycle?
    case DueSleep(t) => c == Sleep(t)
    case End(_, _) => false
  }

  // Every call was due, and now the run is at its end with this result.
  predicate Dutiful(o: Options, pid: nat, log: seq<Call>, r: Teardown) {
    && (forall i :: 0 <= i < |log| ==> Meets(log[i], DueAfter(o, log[..i])))
    && DueAfter(o, log) == End(r.outcome, r.cause)
    && r.pid == pid && (r.gracefulSent <==> Graceful(None) in log) && (r.usedHardKill <==> Killed(log))
  }

  // ---- the escalation keeps to it ----

  // What the state of the escalation says is due.
  function DueIn(s: State): Due {
    match s
    case Starting => DueProbe
    case Asking => DueGraceful
    case Waiting(_, i, _, _, _) => DueSleep(PollSchedule(i))
    case Slept(_, _, _, _, _) => DueProbe
    case Examining(_, _) => DueLifecycle
    case Killing(_) => DueHard
    case Done(r) => End(r.outcome, r.cause)
  }

  lemma {:induction false} KilledIffHards(log: seq<Call>)
    ensures Killed(log) <==> Hards(log) > 0
  {
    if log != [] {
      var init := log[..|log| - 1];
      KilledIffHards(init);
      if Killed(init) {
        var i :| 0 <= i < |init| && init[i].Hard?;
        assert log[i].Hard?;
      }
      if log[|log| - 1].Hard? {
        assert Killed(log);
      }
      if Killed(log) && !log[|log| - 1].Hard? {
        var i :| 0 <= i < |log| && log[i].Hard?;
        assert init[i].Hard?;
      }
    }
  }

  lemma AskedIsDue(o: Options, pid: nat, log: seq<Call>, e: Option<PinError>)
    requires Invariant(o, log, Asking)
    ensures DueIn(Step(o, pid, Asking, Graceful(e)).value) == DueAfter(o, log + [Graceful(e)])
  {
    Measures(log, Graceful(e));
    KilledIffHards(log + [Graceful(e)]);
  }

  lemma KilledIsDue(o: Options, pid: nat, log: seq<Call>, sent: bool, e: Option<PinError>)
    requires Invariant(o, log, Killing(sent))
    ensures DueIn(Step(o, pid, Killing(sent), Hard(e)).value) == DueAfter(o, log + [Hard(e)])
  {
    Measures(log, Hard(e));
    KilledIffHards(log + [Hard(e)]);
  }

  lemma ProbedIsDue(o: Options, pid: nat, log: seq<Call>, s: State, r: ProbeReply)
    requires s.Slept? && Invariant(o, log, s)
    ensures DueIn(Step(o, pid, s, Probe(r)).value) == DueAfter(o, log + [Probe(r)])
  {
    var Slept(hard, i, spent, budget, sent) := s;
    var longer := log + [Probe(r)];
    Measures(log, Probe(r));
    KilledIffHards(longer);
    SpentClosed(i + 1);
    assert log != [];
  }

  lemma ExaminedIsDue(o: Options, pid: nat, log: seq<Call>, s: State, l: Result<Lifecycle, int>)
    requires s.Examining? && Invariant(o, log, s)
    ensures DueIn(Step(o, pid, s, Lifecycle(l)).value) == DueAfter(o, log + [Lifecycle(l)])
  {
    Measures(log, Lifecycle(l));
  }

  lemma BegunIsDue(o: Options, pid: nat, r: ProbeReply)
    ensures DueIn(Step(o, pid, Starting, Probe(r)).value) == DueAfter(o, [Probe(r)])
  {
  }

  lemma NappedIsDue(o: Options, pid: nat, log: seq<Call>, s: State, d: int)
    requires s.Waiting? && d == PollSchedule(s.i)
    ensures DueIn(Step(o, pid, s, Sleep(d)).value) == DueAfter(o, log + [Sleep(d)])
  {
  }

  lemma StepIsDue(o: Options, pid: nat, log: seq<Call>, s: State, c: Call)
    requires Invariant(o, log, s) && Step(o, pid, s, c).Some?
    ensures DueIn(Step(o, pid, s, c).value) == DueAfter(o, log + [c])
  {
    match c
    case Probe(r) =>
      if s.Starting? {
        BegunIsDue(o, pid, r);
        assert log + [c] == [c];
      } else {
        ProbedIsDue(o, pid, log, s, r);
      }
    case Graceful(e) => AskedIsDue(o, pid, log, e);
    case Sleep(d) => NappedIsDue(o, pid, log, s, d);
    case Lifecycle(l) => ExaminedIsDue(o, pid, log, s, l);
    case Hard(e) => KilledIsDue(o, pid, log, s.sent, e);
  }

  lemma StateSaysWhatIsDue(o: Options, pid: nat, log: seq<Call>)
    requires After(o, pid, log).Some?
    ensures DueIn(After(o, pid, log).value) == DueAfter(o, log)
  {
    if log != [] {
      var init, c := log[..|log| - 1], log[|log| - 1];
      InvariantHolds(o, pid, init);
      StepIsDue(o, pid, init, After(o, pid, init).value, c);
      assert log == init + [c];
    }
  }

  lemma MeetsIffStep(o: Options, pid: nat, s: State, c: Call)
    ensures Meets(c, DueIn(s)) <==> Step(o, pid, s, c).Some?
  {
  }

  lemma ResultIsRecorded(o: Options, pid: nat, log: seq<Call>, r: Teardown)
    requires Accepts(o, pid, log, r)
    ensures r.pid == pid && (r.gracefulSent <==> Graceful(None) in log) && (r.usedHardKill <==> Killed(log))
  {
    CallDiscipline(o, pid, log, r);
    KilledIffHards(log);
  }

  lemma DutyContinues(o: Options, pid: nat, log: seq<Call>, c: Call)
    requires After(o, pid, log).Some? && Meets(c, DueAfter(o, log))
    ensures After(o, pid, log + [c]).Some?
  {
    StateSaysWhatIsDue(o, pid, log);
    MeetsIffStep(o, pid, After(o, pid, log).value, c);
    AfterNext(o, pid, log, c);
  }

  lemma {:induction false} DutifulRuns(o: Options, pid: nat, log: seq<Call>, k: nat)
    requires k <= |log| && forall i :: 0 <= i < |log| ==> Meets(log[i], DueAfter(o, log[..i]))
    ensures After(o, pid, log[..k]).Some?
  {
    if k > 0 {
      DutifulRuns(o, pid, log, k - 1);
      assert Meets(log[k - 1], DueAfter(o, log[..k - 1]));
      DutyContinues(o, pid, log[..k - 1], log[k - 1]);
      assert log[..k] == log[..k - 1] + [log[k - 1]];
    }
  }

  // The accepted logs are exactly the dutiful ones.
  lemma AcceptsIffDutiful(o: Options, pid: nat, log: seq<Call>, r: Teardown)
    ensures Accepts(o, pid, log, r) <==> Dutiful(o, pid, log, r)
  {
    assert log[..|log|] == log;
    if Accepts(o, pid, log, r) {
      forall i | 0 <= i < |log|
        ensures Meets(log[i], DueAfter(o, log[..i]))
      {
        PrefixRuns(o, pid, log, i);
        StateSaysWhatIsDue(o, pid, log[..i]);
        MeetsIffStep(o, pid, After(o, pid, log[..i]).value, log[i]);
      }
      StateSaysWhatIsDue(o, pid, log);
      ResultIsRecorded(o, pid, log, r);
    }
    if Dutiful(o, pid, log, r) {
      DutifulRuns(o, pid, log, |log|);
      StateSaysWhatIsDue(o, pid, log);
      ResultIsRecorded(o, pid, log, After(o, pid, log).value.result);
    }
  }

  // ---- what ends a run ----

  lemma EndIsLast(o: Options, pid: nat, log: seq<Call>, r: Teardown, i: nat)
    requires Accepts(o, pid, log, r) && i < |log| && DueAfter(o, log[..i + 1]).End?
    ensures i == |log| - 1 && DueAfter(o, log[..i + 1]) == End(r.outcome, r.cause)
  {
    AcceptsIffDutiful(o, pid, log, r);
    assert i + 1 < |log| ==> Meets(log[i + 1], DueAfter(o, log[..i + 1]));
    assert log[..|log|] == log;
  }

  // Nothing is called after an error of the controller that the escalation does
  // not provide for, and the run reports that error.
  lemma ErrorEndsTheRun(o: Options, pid: nat, log: seq<Call>, r: Teardown, i: nat, e: PinError)
    requires Accepts(o, pid, log, r) && i < |log|
    requires log[i] == Hard(Some(e)) || (log[i] == Graceful(Some(e)) && e != NoConsole)
    requires e != ProcessGone
    ensures i == |log| - 1 && r.cause == FromController(e)
    ensures r.outcome == Changed <==> e == IdentityChanged
    ensures r.outcome == Denied <==> e == PermissionDenied
    ensures r.outcome == Failed <==> e == NoConsole || e.OtherError?
  {
    assert log[..i + 1][|log[..i + 1]| - 1] == log[i];
    EndIsLast(o, pid, log, r, i);
  }

  // Nor after a probe that failed.
  lemma FailedProbeEndsTheRun(o: Options, pid: nat, log: seq<Call>, r: Teardown, i: nat, code: int)
    requires Accepts(o, pid, log, r) && i < |log| && log[i] == Probe(ProbeFailed(code))
    ensures i == |log| - 1 && r.outcome == Failed && r.cause == FromProbe(code)
  {
    assert log[..i + 1][|log[..i + 1]| - 1] == log[i];
    EndIsLast(o, pid, log, r, i);
  }

  // The last call decides the outcome, and the cause names the error in it.
  lemma LastCallTells(o: Options, pid: nat, log: seq<Call>, r: Teardown)
    requires Accepts(o, pid, log, r)
    ensures log != []
    ensures var last := log[|log| - 1];
      && (r.outcome == Changed <==> last in {Graceful(Some(IdentityChanged)), Hard(Some(IdentityChanged))})
      && (r.outcome == Denied <==> last in {Graceful(Some(PermissionDenied)), Hard(Some(PermissionDenied))})
      && (r.outcome == ZombieLeft <==> last == Lifecycle(Ok(Zombie)))
      && (r.cause.FromProbe? <==> last.Probe? && last.probe.ProbeFailed?)
      && (r.cause.FromProbe? ==> last.probe == ProbeFailed(r.cause.code))
      && (r.cause.FromController? ==> last in {Graceful(Some(r.cause.error)), Hard(Some(r.cause.error))})
    ensures r.cause == NoCause <==> r.outcome == Released || r.outcome == ZombieLeft || r.outcome == TimedOut
  {
    AcceptsIffDutiful(o, pid, log, r);
  }
}
