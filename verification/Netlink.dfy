// netlinkRows: four dumps, one after the other, over one socket. Nothing tells the
// replies to one request from those to the next.
module Netlink {
  import opened Model
  import opened Bytes
  import opened InetDiag

  datatype Query = Query(v6: bool, proto: Protocol)

  const QUERIES: seq<Query> := [Query(false, TCP), Query(true, TCP), Query(false, UDP), Query(true, UDP)]

  // Hangs: a dump waits for replies that do not come.
  datatype Table = Found(rows: seq<(Row, Protocol)>) | NotFound(err: DiagError) | Hangs

  // How the rows of a protocol are judged.
  type Judges = Protocol -> Judgement

  function Tag(rows: seq<Row>, proto: Protocol): (tagged: seq<(Row, Protocol)>)
    ensures |tagged| == |rows| && forall i :: 0 <= i < |rows| ==> tagged[i] == (rows[i], proto)
  {
    seq(|rows|, i requires 0 <= i < |rows| => (rows[i], proto))
  }

  function Join(rows: seq<(Row, Protocol)>, t: Table): Table {
    if t.Found? then Found(rows + t.rows) else t
  }

  // A dump that failed: an IPv6 one is passed over.
  function Settle(q: Query, d: Dump, rest: Table): Table {
    match d
    case Blocked => Hangs
    case DumpFailed(err) => if q.v6 then rest else NotFound(err)
    case Rows(rows) => Join(Tag(rows, q.proto), rest)
  }

  // The dumps over one stream of replies; refused[i] is the errno when request i
  // could not be sent.
  function Dumps(queries: seq<Query>, refused: seq<Option<int>>, replies: seq<Reply>, judges: Judges): Table
    requires |refused| == |queries|
    decreases |queries|
  {
    if queries == [] then Found([])
    else
      var q := queries[0];
      if refused[0].Some? then
        Settle(q, DumpFailed(Refused(refused[0].value)), Dumps(queries[1..], refused[1..], replies, judges))
      else
        Settle(q, Gather(replies, judges(q.proto), []),
          Dumps(queries[1..], refused[1..], Unread(replies, judges(q.proto)), judges))
  }

  function AllJudges(): Judges {
    (proto: Protocol) => Judger(proto)
  }

  lemma JoinTwice(rows: seq<(Row, Protocol)>, more: seq<(Row, Protocol)>, t: Table)
    ensures Join(rows, Join(more, t)) == Join(rows + more, t)
  {
    if t.Found? {
      assert rows + (more + t.rows) == rows + more + t.rows;
    }
  }

  method NetlinkRows(socket: Option<int>, refused: seq<Option<int>>, stream: seq<Reply>) returns (t: Table)
    requires |refused| == |QUERIES|
    ensures t == if socket.Some? then NotFound(Refused(socket.value)) else Dumps(QUERIES, refused, stream, AllJudges())
  {
    if socket.Some? {
      return NotFound(Refused(socket.value));
    }
    var rows: seq<(Row, Protocol)> := [];
    var replies := stream;
    for i := 0 to |QUERIES|
      invariant Dumps(QUERIES, refused, stream, AllJudges()) ==
        Join(rows, Dumps(QUERIES[i..], refused[i..], replies, AllJudges()))
    {
      var q := QUERIES[i];
      var got, unread := DiagDump(refused[i], replies, q.proto);
      assert QUERIES[i..][1..] == QUERIES[i + 1..] && refused[i..][1..] == refused[i + 1..];
      ghost var rest := Dumps(QUERIES[i + 1..], refused[i + 1..], unread, AllJudges());
      assert Dumps(QUERIES[i..], refused[i..], replies, AllJudges()) == Settle(q, got, rest);
      replies := unread;
      match got {
        case Blocked => return Hangs;
        case DumpFailed(err) =>
          if !q.v6 {
            return NotFound(err);
          }
        case Rows(own) =>
          JoinTwice(rows, Tag(own, q.proto), rest);
          rows := rows + Tag(own, q.proto);
      }
    }
    return Found(rows);
  }

  // ---- what the four dumps give together ----

  function DumpOnce(refused: Option<int>, replies: seq<Reply>, judge: Judgement): Dump {
    if refused.Some? then DumpFailed(Refused(refused.value)) else Gather(replies, judge, [])
  }

  function LeftBy(refused: Option<int>, replies: seq<Reply>, judge: Judgement): seq<Reply> {
    if refused.Some? then replies else Unread(replies, judge)
  }

  // The rows a dump contributes: one that failed contributes none.
  function Share(d: Dump, proto: Protocol): seq<(Row, Protocol)> {
    if d.Rows? then Tag(d.rows, proto) else []
  }

  // TCP over IPv4 and IPv6, then UDP over both. The dumps over IPv4 must not fail.
  function Together(tcp4: Dump, tcp6: Dump, udp4: Dump, udp6: Dump): Table {
    if tcp4 == Blocked then Hangs
    else if tcp4.DumpFailed? then NotFound(tcp4.err)
    else if tcp6 == Blocked || udp4 == Blocked then Hangs
    else if udp4.DumpFailed? then NotFound(udp4.err)
    else if udp6 == Blocked then Hangs
    else Found(Share(tcp4, TCP) + (Share(tcp6, TCP) + (Share(udp4, UDP) + Share(udp6, UDP))))
  }

  // One dump before the rest.
  lemma SettleIs(q: Query, d: Dump, rest: Table)
    ensures Settle(q, d, rest) ==
      if d == Blocked then Hangs
      else if d.DumpFailed? && !q.v6 then NotFound(d.err)
      else if rest.Found? then Found(Share(d, q.proto) + rest.rows)
      else rest
  {
    if rest.Found? {
      assert [] + rest.rows == rest.rows;
    }
  }

  // The dumps from the one over UDP on.
  lemma SettledUdp(udp4: Dump, udp6: Dump)
    ensures Settle(Query(false, UDP), udp4, Settle(Query(true, UDP), udp6, Found([]))) ==
      if udp4 == Blocked then Hangs
      else if udp4.DumpFailed? then NotFound(udp4.err)
      else if udp6 == Blocked then Hangs
      else Found(Share(udp4, UDP) + Share(udp6, UDP))
  {
    SettleIs(Query(true, UDP), udp6, Found([]));
    assert Share(udp6, UDP) + [] == Share(udp6, UDP);
    SettleIs(Query(false, UDP), udp4, Settle(Query(true, UDP), udp6, Found([])));
  }

  lemma SettledTogether(tcp4: Dump, tcp6: Dump, udp4: Dump, udp6: Dump)
    ensures Settle(Query(false, TCP), tcp4, Settle(Query(true, TCP), tcp6,
        Settle(Query(false, UDP), udp4, Settle(Query(true, UDP), udp6, Found([])))))
      == Together(tcp4, tcp6, udp4, udp6)
  {
    var udp := Settle(Query(false, UDP), udp4, Settle(Query(true, UDP), udp6, Found([])));
    SettledUdp(udp4, udp6);
    SettleIs(Query(true, TCP), tcp6, udp);
    SettleIs(Query(false, TCP), tcp4, Settle(Query(true, TCP), tcp6, udp));
  }

  // The table is what the four dumps give together, each over the replies that the
  // ones before left.
  lemma FourDumps(refused: seq<Option<int>>, replies: seq<Reply>, judges: Judges)
    requires |refused| == 4
    ensures var tcp, udp := judges(TCP), judges(UDP);
      var r1 := LeftBy(refused[0], replies, tcp);
      var r2 := LeftBy(refused[1], r1, tcp);
      var r3 := LeftBy(refused[2], r2, udp);
      Dumps(QUERIES, refused, replies, judges) == Together(DumpOnce(refused[0], replies, tcp),
        DumpOnce(refused[1], r1, tcp), DumpOnce(refused[2], r2, udp), DumpOnce(refused[3], r3, udp))
  {
    var tcp, udp := judges(TCP), judges(UDP);
    var r1 := LeftBy(refused[0], replies, tcp);
    var r2 := LeftBy(refused[1], r1, tcp);
    var r3 := LeftBy(refused[2], r2, udp);
    assert QUERIES == [Query(false, TCP), Query(true, TCP), Query(false, UDP), Query(true, UDP)];
    assert QUERIES[1..] == [Query(true, TCP), Query(false, UDP), Query(true, UDP)];
    assert QUERIES[1..][1..] == [Query(false, UDP), Query(true, UDP)] && QUERIES[1..][1..][1..] == [Query(true, UDP)];
    var f1, f2, f3 := refused[1..], refused[1..][1..], refused[1..][1..][1..];
    assert f1[0] == refused[1] && f2[0] == refused[2] && f3[0] == refused[3];
    assert [Query(true, UDP)][1..] == [];
    assert Dumps([Query(true, UDP)], f3, r3, judges) ==
      Settle(Query(true, UDP), DumpOnce(refused[3], r3, udp), Found([]));
    SettledTogether(DumpOnce(refused[0], replies, tcp), DumpOnce(refused[1], r1, tcp), DumpOnce(refused[2], r2, udp),
      DumpOnce(refused[3], r3, udp));
  }

  // ---- whose replies a dump reads ----

  // A dump over these replies ends, and with the last of them.
  predicate UsesUp(replies: seq<Reply>, judge: Judgement) {
    Gather(replies, judge, []) != Blocked && Unread(replies, judge) == []
  }

  // What follows the replies at which a dump ends does not matter to it.
  lemma {:induction false} GatherEndsThere(replies: seq<Reply>, more: seq<Reply>, judge: Judgement, out: seq<Row>)
    requires Gather(replies, judge, out) != Blocked
    ensures Gather(replies + more, judge, out) == Gather(replies, judge, out)
    ensures Unread(replies + more, judge) == Unread(replies, judge) + more
    decreases |replies|
  {
    var all := replies + more;
    assert all[0] == replies[0] && all[1..] == replies[1..] + more;
    match replies[0]
    case Interrupted => GatherEndsThere(replies[1..], more, judge, out);
    case RecvFailed(_) =>
    case Datagram(d) =>
      var p := Parse(Received(d), judge);
      if p.err == None && !p.done {
        GatherEndsThere(replies[1..], more, judge, out + p.rows);
      }
  }

  // A dump that ends within its own replies leaves the next dump its own exactly
  // when it uses them up.
  lemma NextStartsRightIff(replies: seq<Reply>, more: seq<Reply>, judge: Judgement)
    requires Gather(replies, judge, []) != Blocked
    ensures Unread(replies + more, judge) == more <==> UsesUp(replies, judge)
  {
    GatherEndsThere(replies, more, judge, []);
    if Unread(replies, judge) + more == more {
      assert |Unread(replies, judge)| == 0;
    }
  }

  function Concat(parts: seq<seq<Reply>>): seq<Reply> {
    if parts == [] then [] else parts[0] + Concat(parts[1..])
  }

  function AllSent(n: nat): (refused: seq<Option<int>>)
    ensures |refused| == n && forall i :: 0 <= i < n ==> refused[i] == None
  {
    seq(n, i => None)
  }

  // Each dump on its own.
  function Apart(queries: seq<Query>, parts: seq<seq<Reply>>, judges: Judges): Table
    requires |parts| == |queries|
    decreases |queries|
  {
    if queries == [] then Found([])
    else Settle(queries[0], Gather(parts[0], judges(queries[0].proto), []), Apart(queries[1..], parts[1..], judges))
  }

  // When every dump uses up the replies to its request, the dumps over the one
  // stream return what they would return apart.
  lemma {:induction false} OwnRows(queries: seq<Query>, parts: seq<seq<Reply>>, judges: Judges)
    requires |parts| == |queries|
    requires forall i :: 0 <= i < |queries| ==> UsesUp(parts[i], judges(queries[i].proto))
    ensures Dumps(queries, AllSent(|queries|), Concat(parts), judges) == Apart(queries, parts, judges)
    decreases |queries|
  {
    if queries != [] {
      var judge, rest := judges(queries[0].proto), Concat(parts[1..]);
      assert UsesUp(parts[0], judge);
      GatherEndsThere(parts[0], rest, judge, []);
      assert [] + rest == rest;
      assert AllSent(|queries|)[1..] == AllSent(|queries| - 1);
      forall i | 0 <= i < |queries| - 1
        ensures UsesUp(parts[1..][i], judges(queries[1..][i].proto))
      {
        assert UsesUp(parts[i + 1], judges(queries[i + 1].proto));
      }
      OwnRows(queries[1..], parts[1..], judges);
    }
  }

  predicate Ends(p: Parsed) {
    p.done || p.err.Some?
  }

  // The frames end the dump, and no earlier datagram does.
  predicate Terminated(datagrams: seq<seq<Frame>>, judge: Judgement) {
    && |datagrams| > 0
    && (forall i :: 0 <= i < |datagrams| - 1 ==> !Ends(Fold(datagrams[i], judge)))
    && Ends(Fold(datagrams[|datagrams| - 1], judge))
  }

  // Replies without a datagram end in none.
  lemma {:induction false} OnlyInterruptions(replies: seq<Reply>)
    requires Carries(replies, [])
    ensures forall i :: 0 <= i < |replies| ==> replies[i] == Interrupted
    decreases |replies|
  {
    if replies != [] {
      OnlyInterruptions(replies[1..]);
      assert forall i :: 0 < i < |replies| ==> replies[i] == replies[1..][i - 1];
    }
  }

  // So it is when the end of the table comes in the last datagram, as the last
  // reply.
  lemma {:induction false} TerminatedUsesUp(replies: seq<Reply>, datagrams: seq<seq<Frame>>, judge: Judgement,
      out: seq<Row>)
    requires Carries(replies, datagrams) && Terminated(datagrams, judge) && replies[|replies| - 1].Datagram?
    ensures Gather(replies, judge, out) != Blocked && Unread(replies, judge) == []
    decreases |replies|
  {
    match replies[0]
    case Interrupted => TerminatedUsesUp(replies[1..], datagrams, judge, out);
    case Datagram(d) =>
      ParseInvertsEncode(datagrams[0], judge);
      var p := Fold(datagrams[0], judge);
      if |datagrams| > 1 {
        assert !Ends(Fold(datagrams[0], judge));
        assert Carries(replies[1..], datagrams[1..]) && replies[1..] != [];
        forall i | 0 <= i < |datagrams| - 2
          ensures !Ends(Fold(datagrams[1..][i], judge))
        {
          assert !Ends(Fold(datagrams[i + 1], judge));
        }
        TerminatedUsesUp(replies[1..], datagrams[1..], judge, out + p.rows);
      } else {
        OnlyInterruptions(replies[1..]);
      }
  }

  // ---- a row of the wrong protocol ----

  const TEN: seq<byte> := [0, 0, 0, 0, 0, 0, 0, 0, 0, 0]

  const DONE: Frame := Frame(NLMSG_DONE, TEN, [], [])

  // A header that claims no length.
  const BROKEN: seq<byte> := [0, 0, 0, 0, 0, 0] + TEN

  // The next dump reads one datagram, which ends it.
  lemma DumpOfOne(q: Query, queries: seq<Query>, d: seq<byte>, rest: seq<Reply>, judges: Judges)
    requires |d| <= RECEIVE_BUFFER && Ends(Parse(d, judges(q.proto)))
    ensures Dumps([q] + queries, AllSent(1 + |queries|), [Datagram(d)] + rest, judges) ==
      Settle(q, DumpOf([], Parse(d, judges(q.proto))), Dumps(queries, AllSent(|queries|), rest, judges))
  {
    var replies := [Datagram(d)] + rest;
    assert replies[0] == Datagram(d) && replies[1..] == rest;
    assert ([q] + queries)[1..] == queries && AllSent(1 + |queries|)[1..] == AllSent(|queries|);
  }

  lemma SettleFour(row: Row, err: DiagError)
    ensures Settle(Query(true, UDP), Rows([]), Found([])) == Found([])
    ensures Settle(Query(false, UDP), Rows([row]), Found([])) == Found([(row, UDP)])
    ensures Settle(Query(true, TCP), DumpFailed(err), Found([(row, UDP)])) == Found([(row, UDP)])
    ensures Settle(Query(false, TCP), Rows([]), Found([(row, UDP)])) == Found([(row, UDP)])
  {
    assert Tag([row], UDP) == [(row, UDP)] && [(row, UDP)] + [] == [(row, UDP)];
    assert [] + [(row, UDP)] == [(row, UDP)];
  }

  // Five datagrams for four dumps: an end, a broken one, one with a row, and two ends.
  lemma OneTooMany(end: seq<byte>, broken: seq<byte>, late: seq<byte>, row: Row, judges: Judges)
    requires |end| <= RECEIVE_BUFFER && |broken| <= RECEIVE_BUFFER && |late| <= RECEIVE_BUFFER
    requires forall p :: Parse(end, judges(p)) == Parsed([], true, None)
    requires Parse(broken, judges(TCP)).err.Some? && Parse(late, judges(UDP)) == Parsed([row], true, None)
    ensures var e, b, l := [Datagram(end)], [Datagram(broken)], [Datagram(late)];
      Dumps(QUERIES, AllSent(4), e + (b + (l + (e + e))), judges) == Found([(row, UDP)])
  {
    var e, b, l := [Datagram(end)], [Datagram(broken)], [Datagram(late)];
    var q3 := [Query(true, UDP)] + [];
    var q2 := [Query(false, UDP)] + q3;
    var q1 := [Query(true, TCP)] + q2;
    SettleFour(row, Parse(broken, judges(TCP)).err.value);
    assert [] + [row] == [row];
    DumpOfOne(Query(true, UDP), [], end, e, judges);
    assert Dumps(q3, AllSent(1), e + e, judges) == Found([]);
    DumpOfOne(Query(false, UDP), q3, late, e + e, judges);
    assert Dumps(q2, AllSent(2), l + (e + e), judges) == Found([(row, UDP)]);
    DumpOfOne(Query(true, TCP), q2, broken, l + (e + e), judges);
    assert Dumps(q1, AllSent(3), b + (l + (e + e)), judges) == Found([(row, UDP)]);
    DumpOfOne(Query(false, TCP), q1, end, b + (l + (e + e)), judges);
    assert QUERIES == [Query(false, TCP)] + q1;
  }

  lemma DoneAlone(judge: Judgement)
    requires judge(NLMSG_DONE, []) == Finish
    ensures Parse(EncodeAll([DONE]), judge) == Parsed([], true, None) && |EncodeAll([DONE])| == HEADER
  {
    ParseInvertsEncode([DONE], judge);
    assert [DONE][1..] == [];
  }

  function RowFrame(msg: seq<byte>): Frame {
    Frame(20, TEN, msg, [])
  }

  lemma RowAndDone(msg: seq<byte>, row: Row, judge: Judgement)
    requires |msg| == DIAG_MSG_LEN && judge(20, msg) == Yield(row) && judge(NLMSG_DONE, []) == Finish
    ensures Parse(EncodeAll([RowFrame(msg), DONE]), judge) == Parsed([row], true, None)
    ensures |EncodeAll([RowFrame(msg), DONE])| == 2 * HEADER + DIAG_MSG_LEN
  {
    var frames := [RowFrame(msg), DONE];
    assert frames[1..] == [DONE] && [DONE][1..] == [];
    ParseInvertsEncode(frames, judge);
    DoneAlone(judge);
    assert [row] + [] == [row];
  }

  lemma BrokenFails(judge: Judgement)
    ensures Parse(BROKEN, judge).err.Some?
  {
    assert LE32(BROKEN) == 0;
  }

  lemma RowDecodes(msg: seq<byte>)
    requires |msg| == DIAG_MSG_LEN && msg[0] == AF_INET6
    ensures ParseDiagMsg(msg, UDP).Some? && Judge(20, msg, UDP) == Yield(ParseDiagMsg(msg, UDP).value)
  {
  }

  // The first dump over IPv6 fails at its first datagram. The row in its second is
  // then read by the UDP dump, and comes out as a UDP row.
  lemma LeftoverRow(msg: seq<byte>)
    requires |msg| == DIAG_MSG_LEN && msg[0] == AF_INET6
    ensures ParseDiagMsg(msg, UDP).Some?
    ensures var end, late := [Datagram(EncodeAll([DONE]))], [Datagram(EncodeAll([RowFrame(msg), DONE]))];
      Dumps(QUERIES, AllSent(4), end + ([Datagram(BROKEN)] + (late + (end + end))), AllJudges())
        == Found([(ParseDiagMsg(msg, UDP).value, UDP)])
  {
    RowDecodes(msg);
    var row := ParseDiagMsg(msg, UDP).value;
    forall p
      ensures Parse(EncodeAll([DONE]), AllJudges()(p)) == Parsed([], true, None)
    {
      DoneAlone(Judger(p));
    }
    DoneAlone(Judger(UDP));
    RowAndDone(msg, row, Judger(UDP));
    BrokenFails(Judger(TCP));
    OneTooMany(EncodeAll([DONE]), BROKEN, EncodeAll([RowFrame(msg), DONE]), row, AllJudges());
  }
}
