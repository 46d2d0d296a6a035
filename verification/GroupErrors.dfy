// Which error a group reports when its members answer one call.
module GroupErrors {
  import opened Model
  import opened Escalation

  datatype MemberReply = MemberReply(primary: bool, reply: Option<PinError>)

  predicate Ignorable(e: PinError) {
    e.ProcessGone? || e.IdentityChanged? || e.NoConsole?
  }

  // The primary's answer; the last one should it be asked more than once.
  function PrimaryReply(replies: seq<MemberReply>): Option<PinError> {
    if replies == [] then None
    else
      var last := replies[|replies| - 1];
      if last.primary then last.reply else PrimaryReply(replies[..|replies| - 1])
  }

  // The first error of another member that matters.
  function OtherReply(replies: seq<MemberReply>): Option<PinError> {
    if replies == [] then None
    else
      var init, last := OtherReply(replies[..|replies| - 1]), replies[|replies| - 1];
      if init == None && !last.primary && last.reply.Some? && !Ignorable(last.reply.value) then last.reply else init
  }

  function Combine(primary: Option<PinError>, other: Option<PinError>): Option<PinError> {
    if other.Some? && (primary == None || primary == Some(ProcessGone)) then other else primary
  }

  function GroupReply(replies: seq<MemberReply>): Option<PinError> {
    Combine(PrimaryReply(replies), OtherReply(replies))
  }

  predicate Matters(r: MemberReply) {
    !r.primary && r.reply.Some? && !Ignorable(r.reply.value)
  }

  predicate FirstMatter(replies: seq<MemberReply>, i: int) {
    0 <= i < |replies| && Matters(replies[i]) && forall j :: 0 <= j < i ==> !Matters(replies[j])
  }

  lemma {:induction false} OtherReplyIsFirst(replies: seq<MemberReply>)
    ensures match OtherReply(replies)
      case None => forall i :: 0 <= i < |replies| ==> !Matters(replies[i])
      case Some(e) => exists i :: FirstMatter(replies, i) && replies[i].reply == Some(e)
  {
    if replies != [] {
      var init := replies[..|replies| - 1];
      OtherReplyIsFirst(init);
      if OtherReply(init).Some? {
        var i :| FirstMatter(init, i) && init[i].reply == OtherReply(init);
        assert FirstMatter(replies, i);
      } else {
        assert forall j :: 0 <= j < |init| ==> replies[j] == init[j];
        assert Matters(replies[|replies| - 1]) ==> FirstMatter(replies, |replies| - 1);
      }
    }
  }

  lemma {:induction false} PrimaryReplyAt(replies: seq<MemberReply>, k: nat)
    requires k < |replies| && replies[k].primary
    requires forall i :: k < i < |replies| ==> !replies[i].primary
    ensures PrimaryReply(replies) == replies[k].reply
  {
    if k < |replies| - 1 {
      PrimaryReplyAt(replies[..|replies| - 1], k);
    }
  }

  // What the group takes for the primary's answer, the primary answered.
  lemma {:induction false} PrimaryAnswered(replies: seq<MemberReply>)
    requires PrimaryReply(replies).Some?
    ensures exists i :: 0 <= i < |replies| && replies[i].primary && replies[i].reply == PrimaryReply(replies)
  {
    var init, last := replies[..|replies| - 1], replies[|replies| - 1];
    if last.primary {
      assert replies[|replies| - 1].primary;
    } else {
      PrimaryAnswered(init);
      var i :| 0 <= i < |init| && init[i].primary && init[i].reply == PrimaryReply(init);
      assert replies[i] == init[i];
    }
  }

  // An ignorable error that the group reports is the primary's own.
  lemma IgnorableIsPrimarys(replies: seq<MemberReply>)
    requires GroupReply(replies).Some? && Ignorable(GroupReply(replies).value)
    ensures exists i :: 0 <= i < |replies| && replies[i].primary && replies[i].reply == GroupReply(replies)
  {
    OtherReplyIsFirst(replies);
    PrimaryAnswered(replies);
  }

  lemma {:induction false} PrimaryReplyIs(replies: seq<MemberReply>, k: nat, e: Option<PinError>)
    requires k < |replies| && replies[k].primary
    requires forall i :: 0 <= i < |replies| && replies[i].primary ==> replies[i].reply == e
    ensures PrimaryReply(replies) == e
  {
    if !replies[|replies| - 1].primary {
      PrimaryReplyIs(replies[..|replies| - 1], k, e);
    }
  }

  // When everybody answers the same, so does the group.
  lemma SameAnswers(replies: seq<MemberReply>, k: nat, e: Option<PinError>)
    requires k < |replies| && replies[k].primary
    requires forall i :: 0 <= i < |replies| ==> replies[i].reply == e
    ensures GroupReply(replies) == e
  {
    OtherReplyIsFirst(replies);
    PrimaryReplyIs(replies, k, e);
  }

  // An error of the primary other than process-gone is reported whatever the
  // others say; otherwise the first error of another member that matters is.
  lemma PrimaryErrorWins(replies: seq<MemberReply>, k: nat)
    requires k < |replies| && replies[k].primary
    requires forall i :: 0 <= i < |replies| && replies[i].primary ==> i == k
    ensures replies[k].reply.Some? && replies[k].reply != Some(ProcessGone) ==> GroupReply(replies) == replies[k].reply
    ensures replies[k].reply == None || replies[k].reply == Some(ProcessGone) ==>
      if exists i :: 0 <= i < |replies| && Matters(replies[i])
      then exists i :: FirstMatter(replies, i) && GroupReply(replies) == replies[i].reply
      else GroupReply(replies) == replies[k].reply
  {
    PrimaryReplyAt(replies, k);
    OtherReplyIsFirst(replies);
  }

  // Another member was refused, or failed for a reason of its own.
  predicate Serious(r: MemberReply) {
    !r.primary && r.reply.Some? && (r.reply.value.PermissionDenied? || r.reply.value.OtherError?)
  }

  // When the primary was stopped or is gone, the first member that was refused, or
  // failed for a reason of its own, is reported.
  lemma SeriousErrorIsReported(replies: seq<MemberReply>, k: nat, i: nat)
    requires k < |replies| && replies[k].primary
    requires forall j :: 0 <= j < |replies| && replies[j].primary ==> j == k
    requires replies[k].reply == None || replies[k].reply == Some(ProcessGone)
    requires i < |replies| && Serious(replies[i]) && forall j :: 0 <= j < i ==> !Serious(replies[j])
    ensures GroupReply(replies) == replies[i].reply
  {
    PrimaryReplyAt(replies, k);
    OtherReplyIsFirst(replies);
    assert Matters(replies[i]);
  }

  // That one of them is gone, was replaced or has no console never is.
  lemma OtherErrorsAreNot(replies: seq<MemberReply>, k: nat)
    requires k < |replies| && replies[k].primary
    requires forall j :: 0 <= j < |replies| && replies[j].primary ==> j == k
    requires forall j :: 0 <= j < |replies| ==> !Serious(replies[j])
    ensures GroupReply(replies) == replies[k].reply
  {
    PrimaryReplyAt(replies, k);
    OtherReplyIsFirst(replies);
  }

  // When the primary occurs once and the other members' errors are ignorable,
  // a run over the group is the run over the primary alone.
  lemma GroupRunsLikePrimary(o: Options, pid: nat, probes: nat -> ProbeReply, life: Result<Lifecycle, int>,
      graceful: seq<MemberReply>, hard: seq<MemberReply>, k: nat, groupLog: seq<Call>, groupResult: Teardown,
      log: seq<Call>, result: Teardown)
    requires |graceful| == |hard| && k < |graceful|
    requires forall i :: 0 <= i < |graceful| ==> (graceful[i].primary <==> i == k) && (hard[i].primary <==> i == k)
    requires forall i :: 0 <= i < |graceful| ==> !Matters(graceful[i]) && !Matters(hard[i])
    requires Accepts(o, pid, groupLog, groupResult)
    requires Follows(Answers(probes, GroupReply(graceful), GroupReply(hard), life), groupLog)
    requires Accepts(o, pid, log, result)
    requires Follows(Answers(probes, graceful[k].reply, hard[k].reply, life), log)
    ensures groupLog == log && groupResult == result
  {
    PrimaryErrorWins(graceful, k);
    PrimaryErrorWins(hard, k);
    SameAnswersSameRun(o, pid, Answers(probes, graceful[k].reply, hard[k].reply, life), groupLog, groupResult, log,
      result);
  }
}
