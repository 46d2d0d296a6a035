// The inet_diag socket tables that come over netlink: the frame loop, the row
// decoder, and the loop that gathers datagrams.
module InetDiag {
  import opened Model
  import opened Bytes

  const HEADER: nat := 16
  const NLMSG_ERROR: nat := 2
  const NLMSG_DONE: nat := 3
  const DIAG_MSG_LEN: nat := 72
  const AF_INET: byte := 2
  const AF_INET6: byte := 10
  const RECEIVE_BUFFER: nat := 0x1_0000

  datatype Row = Row(local: AddrPort, remote: AddrPort, state: SocketState, uid: nat, inode: nat)

  datatype DiagError = Truncated | Refused(errno: int)

  // What the frame loop returns.
  datatype Parsed = Parsed(rows: seq<Row>, done: bool, err: Option<DiagError>)

  // What one frame does to the loop: it yields a row, or ends the loop.
  datatype Verdict = Yield(row: Row) | Finish | Fail(err: DiagError)

  predicate AllZero(b: seq<nat>) {
    forall i :: 0 <= i < |b| ==> b[i] == 0
  }

  // An address that stands for "any".
  predicate Unspecified(a: Addr) {
    match a
    case NoAddr => false
    case V4(b) => AllZero(b)
    case V6(b, zone) => AllZero(b) && zone == ""
  }

  function StateOf(proto: Protocol, st: byte, remote: AddrPort): SocketState {
    if proto == UDP then
      if remote.addr == NoAddr || Unspecified(remote.addr) then Listen else Established
    else if st == 0x0A then Listen
    else if st == 0x01 then Established
    else if st == 0x08 then CloseWait
    else if st == 0x06 then TimeWait
    else Other
  }

  function DiagAddr(family: byte, raw: seq<byte>, port: nat): Option<AddrPort>
    requires |raw| == 16
  {
    if family == AF_INET then Some(AddrPort(V4(raw[..4]), port))
    else if family == AF_INET6 then Some(AddrPort(V6(raw, ""), port))
    else None
  }

  function ParseDiagMsg(m: seq<byte>, proto: Protocol): Option<Row> {
    if |m| < DIAG_MSG_LEN then None
    else
      var local := DiagAddr(m[0], m[8..24], BE16(m[4..]));
      var remote := DiagAddr(m[0], m[24..40], BE16(m[6..]));
      if local == None || remote == None then None
      else Some(Row(local.value, remote.value, StateOf(proto, m[1], remote.value), LE32(m[64..]), LE32(m[68..])))
  }

  // The signed value of a 32-bit word.
  function Signed(word: nat): int {
    if word < 0x8000_0000 then word else word - U32
  }

  function Judge(kind: nat, body: seq<byte>, proto: Protocol): Verdict {
    if kind == NLMSG_DONE then Finish
    else if kind == NLMSG_ERROR then
      if |body| < 4 then Fail(Truncated)
      else
        var code := Signed(LE32(body));
        if code != 0 then Fail(Refused(-code)) else Finish
    else
      match ParseDiagMsg(body, proto)
      case None => Fail(Truncated)
      case Some(row) => Yield(row)
  }

  // How the loop judges a frame by its type and body.
  type Judgement = (nat, seq<byte>) -> Verdict

  function Judger(proto: Protocol): Judgement {
    (kind: nat, body: seq<byte>) => Judge(kind, body, proto)
  }

  function AlignedLength(n: nat): nat {
    (n + 3) / 4 * 4
  }

  // What the loop returns when a frame ends it.
  function Ended(v: Verdict): Parsed
    requires !v.Yield?
  {
    Parsed([], v.Finish?, if v.Fail? then Some(v.err) else None)
  }

  function Prepend(rows: seq<Row>, p: Parsed): Parsed {
    p.(rows := rows + p.rows)
  }

  // What is left after the first frame and its padding.
  function Rest(b: seq<byte>): (rest: seq<byte>)
    requires |b| >= HEADER && HEADER <= LE32(b) <= |b|
    ensures |rest| + LE32(b) <= |b|
  {
    var n := AlignedLength(LE32(b));
    b[if n < |b| then n else |b|..]
  }

  // The frame loop as a recursion over the bytes that are left.
  function Parse(b: seq<byte>, judge: Judgement): Parsed
    decreases |b|
  {
    if |b| < HEADER then Parsed([], false, None)
    else
      var n := LE32(b);
      if n < HEADER || n > |b| then Parsed([], false, Some(Truncated))
      else
        var v := judge(LE16(b[4..]), b[HEADER..n]);
        if v.Yield? then Prepend([v.row], Parse(Rest(b), judge))
        else Ended(v)
  }

  lemma PrependTwice(rows: seq<Row>, more: seq<Row>, p: Parsed)
    ensures Prepend(rows, Prepend(more, p)) == Prepend(rows + more, p)
  {
    assert rows + (more + p.rows) == rows + more + p.rows;
  }

  method ParseInetDiag(bytes: seq<byte>, proto: Protocol) returns (r: Parsed)
    ensures r == Parse(bytes, Judger(proto))
  {
    ghost var judge := Judger(proto);
    var b := bytes;
    var rows: seq<Row> := [];
    while |b| >= HEADER
      invariant Parse(bytes, judge) == Prepend(rows, Parse(b, judge))
      decreases |b|
    {
      var n := LE32(b);
      if n < HEADER || n > |b| {
        return Parsed(rows, false, Some(Truncated));
      }
      var verdict := Judge(LE16(b[4..]), b[HEADER..n], proto);
      if verdict.Finish? {
        return Parsed(rows, true, None);
      }
      if verdict.Fail? {
        return Parsed(rows, false, Some(verdict.err));
      }
      var rest := Rest(b);
      PrependTwice(rows, [verdict.row], Parse(rest, judge));
      rows := rows + [verdict.row];
      b := rest;
    }
    return Parsed(rows, false, None);
  }

  // Every row takes up a header and a whole message of its own, so a parse ends
  // after a bounded number of rows, whatever the bytes.
  lemma {:induction false} RowsFitBytes(b: seq<byte>, proto: Protocol)
    ensures (HEADER + DIAG_MSG_LEN) * |Parse(b, Judger(proto)).rows| <= |b|
    decreases |b|
  {
    if |b| >= HEADER && HEADER <= LE32(b) <= |b| && Judge(LE16(b[4..]), b[HEADER..LE32(b)], proto).Yield? {
      RowsFitBytes(Rest(b), proto);
      assert |b[HEADER..LE32(b)]| >= DIAG_MSG_LEN;
    }
  }

  // ---- frames ----

  // One netlink message: its type, the rest of its header, its body, and the
  // bytes that fill it up to a multiple of four.
  datatype Frame = Frame(kind: nat, rest: seq<byte>, body: seq<byte>, pad: seq<byte>)

  predicate Encodable(f: Frame) {
    f.kind < U16 && |f.rest| == 10 && HEADER + |f.body| < U32
  }

  // How many bytes fill a message up to a multiple of four.
  function Padding(n: nat): nat {
    match n % 4
    case 0 => 0
    case 1 => 3
    case 2 => 2
    case _ => 1
  }

  predicate Padded(f: Frame) {
    |f.pad| == Padding(HEADER + |f.body|)
  }

  predicate AtMostPadded(f: Frame) {
    |f.pad| <= Padding(HEADER + |f.body|)
  }

  // Every frame is padded; the last one may stop short.
  predicate WellFormed(frames: seq<Frame>) {
    && (forall i :: 0 <= i < |frames| ==> Encodable(frames[i]) && AtMostPadded(frames[i]))
    && (forall i :: 0 <= i < |frames| - 1 ==> Padded(frames[i]))
  }

  function Encode(f: Frame): seq<byte>
    requires Encodable(f)
  {
    PutLE32(HEADER + |f.body|) + PutLE16(f.kind) + f.rest + f.body + f.pad
  }

  function EncodeAll(frames: seq<Frame>): seq<byte>
    requires forall i :: 0 <= i < |frames| ==> Encodable(frames[i])
  {
    if frames == [] then [] else Encode(frames[0]) + EncodeAll(frames[1..])
  }

  // What the frames themselves mean.
  function Fold(frames: seq<Frame>, judge: Judgement): Parsed {
    if frames == [] then Parsed([], false, None)
    else
      var v := judge(frames[0].kind, frames[0].body);
      if v.Yield? then Prepend([v.row], Fold(frames[1..], judge)) else Ended(v)
  }

  lemma EncodedFrame(f: Frame, tail: seq<byte>)
    requires Encodable(f)
    ensures var b, n := Encode(f) + tail, HEADER + |f.body|;
      && |b| >= n && LE32(b) == n && LE16(b[4..]) == f.kind && b[HEADER..n] == f.body
      && b[n + |f.pad|..] == tail
  {
    var b := Encode(f) + tail;
    assert b[..4] == PutLE32(HEADER + |f.body|);
    assert b[4..6] == PutLE16(f.kind);
    assert b[4..][0] == b[4..6][0] && b[4..][1] == b[4..6][1];
  }

  lemma PaddingFills(n: nat)
    ensures AlignedLength(n) == n + Padding(n)
  {
  }

  // What is left after a frame is what follows it.
  lemma RestOfFrame(f: Frame, tail: seq<byte>)
    requires Encodable(f) && (Padded(f) || (AtMostPadded(f) && tail == []))
    ensures var b := Encode(f) + tail;
      |b| >= HEADER && HEADER <= LE32(b) <= |b| && Rest(b) == tail
  {
    EncodedFrame(f, tail);
    PaddingFills(HEADER + |f.body|);
  }

  // A frame that yields a row, and what follows it.
  lemma ParseOne(f: Frame, tail: seq<byte>, judge: Judgement)
    requires Encodable(f) && (Padded(f) || (AtMostPadded(f) && tail == []))
    ensures var v := judge(f.kind, f.body);
      Parse(Encode(f) + tail, judge) == if v.Yield? then Prepend([v.row], Parse(tail, judge)) else Ended(v)
  {
    EncodedFrame(f, tail);
    RestOfFrame(f, tail);
  }

  // Parsing encoded frames gives what the frames mean.
  lemma {:induction false} ParseInvertsEncode(frames: seq<Frame>, judge: Judgement)
    requires WellFormed(frames)
    ensures Parse(EncodeAll(frames), judge) == Fold(frames, judge)
    decreases |frames|
  {
    if frames != [] {
      var f, tail := frames[0], EncodeAll(frames[1..]);
      assert WellFormed(frames[1..]) by {
        assert forall i :: 0 <= i < |frames| - 1 ==> frames[1..][i] == frames[i + 1];
      }
      ParseInvertsEncode(frames[1..], judge);
      assert |frames| > 1 ==> Padded(f);
      ParseOne(f, tail, judge);
    }
  }

  lemma {:induction false} FoldRows(frames: seq<Frame>, judge: Judgement, rows: seq<Row>)
    requires |rows| < |frames|
    requires forall i :: 0 <= i < |rows| ==> judge(frames[i].kind, frames[i].body) == Yield(rows[i])
    requires !judge(frames[|rows|].kind, frames[|rows|].body).Yield?
    ensures Fold(frames, judge) == Prepend(rows, Ended(judge(frames[|rows|].kind, frames[|rows|].body)))
    decreases |rows|
  {
    if rows != [] {
      FoldRows(frames[1..], judge, rows[1..]);
      PrependTwice([rows[0]], rows[1..], Ended(judge(frames[|rows|].kind, frames[|rows|].body)));
      assert rows == [rows[0]] + rows[1..];
    }
  }

  // So the rows come out in order, up to the first frame that ends the loop.
  lemma {:induction false} RowsUpToTerminator(frames: seq<Frame>, judge: Judgement, rows: seq<Row>)
    requires WellFormed(frames) && |rows| < |frames|
    requires forall i :: 0 <= i < |rows| ==> judge(frames[i].kind, frames[i].body) == Yield(rows[i])
    requires !judge(frames[|rows|].kind, frames[|rows|].body).Yield?
    ensures Parse(EncodeAll(frames), judge) == Prepend(rows, Ended(judge(frames[|rows|].kind, frames[|rows|].body)))
  {
    ParseInvertsEncode(frames, judge);
    FoldRows(frames, judge, rows);
  }

  // ---- single messages ----

  // Message 3 ends a dump; message 2 carries an error as its negative, and ends the
  // dump when there is none.
  lemma EndAndErrorMessages(errno: nat, rest: seq<byte>, body: seq<byte>, proto: Protocol)
    requires errno < 0x8000_0000
    ensures Judge(3, body, proto) == Finish
    ensures |body| < 4 ==> Judge(2, body, proto) == Fail(Truncated)
    ensures Judge(2, PutLE32(if errno == 0 then 0 else U32 - errno) + rest, proto) ==
      if errno == 0 then Finish else Fail(Refused(errno))
  {
    LE32OfPut(if errno == 0 then 0 else U32 - errno, rest);
  }

  // Any other message is a row exactly when it is long enough and of a known family.
  lemma RowMessages(kind: nat, body: seq<byte>, proto: Protocol)
    requires kind != 2 && kind != 3
    ensures Judge(kind, body, proto).Yield? <==> |body| >= 72 && body[0] in {2, 10}
    ensures !Judge(kind, body, proto).Yield? ==> Judge(kind, body, proto) == Fail(Truncated)
  {
  }

  // What comes after frames that yield rows is parsed by itself.
  lemma {:induction false} ParseTail(frames: seq<Frame>, tail: seq<byte>, judge: Judgement, rows: seq<Row>)
    requires |rows| == |frames| && forall i :: 0 <= i < |frames| ==> Encodable(frames[i]) && Padded(frames[i])
    requires forall i :: 0 <= i < |frames| ==> judge(frames[i].kind, frames[i].body) == Yield(rows[i])
    ensures Parse(EncodeAll(frames) + tail, judge) == Prepend(rows, Parse(tail, judge))
    decreases |frames|
  {
    if frames == [] {
      assert EncodeAll(frames) + tail == tail && [] + Parse(tail, judge).rows == Parse(tail, judge).rows;
    } else {
      var f, rest := frames[0], EncodeAll(frames[1..]) + tail;
      assert EncodeAll(frames) + tail == Encode(f) + rest;
      ParseOne(f, rest, judge);
      ParseTail(frames[1..], tail, judge, rows[1..]);
      PrependTwice([rows[0]], rows[1..], Parse(tail, judge));
      assert rows == [rows[0]] + rows[1..];
    }
  }

  // Fewer than 16 bytes are left alone; a header that claims less than itself or
  // more than there is fails the parse, after the rows before it.
  lemma BrokenTail(frames: seq<Frame>, tail: seq<byte>, judge: Judgement, rows: seq<Row>)
    requires |rows| == |frames| && forall i :: 0 <= i < |frames| ==> Encodable(frames[i]) && Padded(frames[i])
    requires forall i :: 0 <= i < |frames| ==> judge(frames[i].kind, frames[i].body) == Yield(rows[i])
    ensures |tail| < 16 ==> Parse(EncodeAll(frames) + tail, judge) == Parsed(rows, false, None)
    ensures |tail| >= 16 && (LE32(tail) < 16 || LE32(tail) > |tail|) ==>
      Parse(EncodeAll(frames) + tail, judge) == Parsed(rows, false, Some(Truncated))
  {
    ParseTail(frames, tail, judge, rows);
    assert rows + [] == rows;
  }

  // ---- datagrams ----

  datatype Reply = Interrupted | RecvFailed(errno: int) | Datagram(bytes: seq<byte>)

  // Blocked: the replies ran out and the receive is still waiting.
  datatype Dump = Rows(rows: seq<Row>) | DumpFailed(err: DiagError) | Blocked

  // What fits into the receive buffer.
  function Received(d: seq<byte>): seq<byte> {
    if |d| <= RECEIVE_BUFFER then d else d[..RECEIVE_BUFFER]
  }

  function Gather(replies: seq<Reply>, judge: Judgement, out: seq<Row>): Dump {
    if replies == [] then Blocked
    else
      match replies[0]
      case Interrupted => Gather(replies[1..], judge, out)
      case RecvFailed(errno) => DumpFailed(Refused(errno))
      case Datagram(d) =>
        var p := Parse(Received(d), judge);
        if p.err.Some? then DumpFailed(p.err.value)
        else if p.done then Rows(out + p.rows)
        else Gather(replies[1..], judge, out + p.rows)
  }

  // The replies a dump leaves unread.
  function Unread(replies: seq<Reply>, judge: Judgement): seq<Reply> {
    if replies == [] then []
    else
      match replies[0]
      case Interrupted => Unread(replies[1..], judge)
      case RecvFailed(_) => replies[1..]
      case Datagram(d) =>
        var p := Parse(Received(d), judge);
        if p.err.Some? || p.done then replies[1..] else Unread(replies[1..], judge)
  }

  // A request that could not be sent ends the dump; `refused` is the errno.
  method DiagDump(refused: Option<int>, replies: seq<Reply>, proto: Protocol) returns (r: Dump, unread: seq<Reply>)
    ensures r == if refused.Some? then DumpFailed(Refused(refused.value)) else Gather(replies, Judger(proto), [])
    ensures unread == if refused.Some? then replies else Unread(replies, Judger(proto))
  {
    if refused.Some? {
      return DumpFailed(Refused(refused.value)), replies;
    }
    ghost var judge := Judger(proto);
    var out: seq<Row> := [];
    var i := 0;
    while i < |replies|
      invariant 0 <= i <= |replies|
      invariant Gather(replies, judge, []) == Gather(replies[i..], judge, out)
      invariant Unread(replies, judge) == Unread(replies[i..], judge)
    {
      assert replies[i..][1..] == replies[i + 1..];
      match replies[i] {
        case Interrupted =>
        case RecvFailed(errno) => return DumpFailed(Refused(errno)), replies[i + 1..];
        case Datagram(d) =>
          var p := ParseInetDiag(Received(d), proto);
          if p.err.Some? {
            return DumpFailed(p.err.value), replies[i + 1..];
          }
          out := out + p.rows;
          if p.done {
            return Rows(out), replies[i + 1..];
          }
      }
      i := i + 1;
    }
    return Blocked, [];
  }

  // The replies carry these datagrams, each a run of frames, with any number of
  // interruptions in between.
  predicate Carries(replies: seq<Reply>, datagrams: seq<seq<Frame>>) {
    if replies == [] then datagrams == []
    else
      match replies[0]
      case Interrupted => Carries(replies[1..], datagrams)
      case RecvFailed(_) => false
      case Datagram(d) =>
        && datagrams != [] && WellFormed(datagrams[0])
        && d == EncodeAll(datagrams[0]) && |d| <= 65_536
        && Carries(replies[1..], datagrams[1..])
  }

  function Flatten(datagrams: seq<seq<Frame>>): seq<Frame> {
    if datagrams == [] then [] else datagrams[0] + Flatten(datagrams[1..])
  }

  function DumpOf(out: seq<Row>, p: Parsed): Dump {
    if p.err.Some? then DumpFailed(p.err.value) else if p.done then Rows(out + p.rows) else Blocked
  }

  lemma {:induction false} FoldAppend(frames: seq<Frame>, more: seq<Frame>, judge: Judgement)
    ensures Fold(frames + more, judge) ==
      var p := Fold(frames, judge);
      if p.done || p.err.Some? then p else Prepend(p.rows, Fold(more, judge))
  {
    if frames == [] {
      assert frames + more == more;
    } else {
      assert (frames + more)[1..] == frames[1..] + more;
      FoldAppend(frames[1..], more, judge);
      var v := judge(frames[0].kind, frames[0].body);
      if v.Yield? {
        PrependTwice([v.row], Fold(frames[1..], judge).rows, Fold(more, judge));
      }
    }
  }

  lemma DumpOfLater(out: seq<Row>, rows: seq<Row>, q: Parsed)
    ensures DumpOf(out + rows, q) == DumpOf(out, Prepend(rows, q))
  {
    assert out + rows + q.rows == out + (rows + q.rows);
  }

  // However the frames are split over datagrams, the dump is what the frames
  // mean in one piece.
  lemma {:induction false} SplitDoesNotMatter(replies: seq<Reply>, datagrams: seq<seq<Frame>>, judge: Judgement,
      out: seq<Row>)
    requires Carries(replies, datagrams)
    ensures Gather(replies, judge, out) == DumpOf(out, Fold(Flatten(datagrams), judge))
    decreases |replies|
  {
    if replies != [] {
      match replies[0]
      case Interrupted => SplitDoesNotMatter(replies[1..], datagrams, judge, out);
      case Datagram(d) =>
        ParseInvertsEncode(datagrams[0], judge);
        FoldAppend(datagrams[0], Flatten(datagrams[1..]), judge);
        var p, q := Fold(datagrams[0], judge), Fold(Flatten(datagrams[1..]), judge);
        if p.err == None && !p.done {
          SplitDoesNotMatter(replies[1..], datagrams[1..], judge, out + p.rows);
          DumpOfLater(out, p.rows, q);
        }
    }
  }

  // A receive that fails ends a dump that was still waiting, with its errno.
  lemma {:induction false} ReceiveErrorEnds(replies: seq<Reply>, errno: int, more: seq<Reply>, judge: Judgement,
      out: seq<Row>)
    requires Gather(replies, judge, out) == Blocked
    ensures Gather(replies + [RecvFailed(errno)] + more, judge, out) == DumpFailed(Refused(errno))
    decreases |replies|
  {
    var all := replies + [RecvFailed(errno)] + more;
    if replies == [] {
      assert all[0] == RecvFailed(errno);
    } else {
      assert all[0] == replies[0] && all[1..] == replies[1..] + [RecvFailed(errno)] + more;
      match replies[0]
      case Interrupted => ReceiveErrorEnds(replies[1..], errno, more, judge, out);
      case Datagram(d) => ReceiveErrorEnds(replies[1..], errno, more, judge, out + Parse(Received(d), judge).rows);
    }
  }

  // Two ways of splitting the same frames give the same dump.
  lemma SplitsAgree(replies: seq<Reply>, datagrams: seq<seq<Frame>>, replies': seq<Reply>, datagrams': seq<seq<Frame>>,
      judge: Judgement)
    requires Carries(replies, datagrams) && Carries(replies', datagrams') && Flatten(datagrams) == Flatten(datagrams')
    ensures Gather(replies, judge, []) == Gather(replies', judge, [])
  {
    SplitDoesNotMatter(replies, datagrams, judge, []);
    SplitDoesNotMatter(replies', datagrams', judge, []);
  }
}
