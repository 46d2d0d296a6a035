// The two Linux socket tables say the same thing: a socket written as an
// inet_diag message or as a line of /proc/net is read back as the same row.
module Sources {
  import opened Model
  import opened Bytes
  import opened Text
  import opened InetDiag
  import ProcNet

  // The states of a TCP socket that portpin tells apart, and the others by number.
  datatype TcpState = InEstablished | InTimeWait | InCloseWait | InListen | InOther(number: byte)

  // The number the kernel gives a state.
  function NumberOf(st: TcpState): byte {
    match st
    case InEstablished => 1
    case InTimeWait => 6
    case InCloseWait => 8
    case InListen => 10
    case InOther(number) => number
  }

  // What the kernel knows of a socket that both tables report. The bytes of an
  // address are in network order. For UDP the state means nothing.
  datatype Socket = Socket(v6: bool, local: seq<byte>, localPort: nat, remote: seq<byte>, remotePort: nat,
      state: TcpState, uid: nat, inode: nat)
  {
    predicate Valid() {
      && (state.InOther? ==> state.number !in {1, 6, 8, 10})
      && |local| == |remote| == (if v6 then 16 else 4)
      && localPort < U16 && remotePort < U16 && uid < U32 && inode < U32
    }
  }

  function AddressOf(v6: bool, bytes: seq<byte>): Addr {
    if v6 then V6(bytes, "") else V4(bytes)
  }

  // The state a reader should get: for UDP, a socket without a peer listens.
  function StateFor(s: Socket, proto: Protocol): SocketState {
    match proto
    case UDP => if forall i :: 0 <= i < |s.remote| ==> s.remote[i] == 0 then Listen else Established
    case TCP =>
      match s.state
      case InEstablished => Established
      case InTimeWait => TimeWait
      case InCloseWait => CloseWait
      case InListen => Listen
      case InOther(_) => Other
  }

  // The row a reader should get.
  function RowFor(s: Socket, proto: Protocol): Row {
    Row(AddrPort(AddressOf(s.v6, s.local), s.localPort), AddrPort(AddressOf(s.v6, s.remote), s.remotePort),
      StateFor(s, proto), s.uid, s.inode)
  }

  lemma StateIsRead(s: Socket, proto: Protocol)
    requires s.Valid()
    ensures StateOf(proto, NumberOf(s.state), AddrPort(AddressOf(s.v6, s.remote), s.remotePort)) == StateFor(s, proto)
  {
  }

  function RowsFor(sockets: seq<Socket>, proto: Protocol): (rows: seq<Row>)
    ensures |rows| == |sockets| && forall i :: 0 <= i < |rows| ==> rows[i] == RowFor(sockets[i], proto)
  {
    seq(|sockets|, i requires 0 <= i < |sockets| => RowFor(sockets[i], proto))
  }

  // ---- as a message ----

  // The bytes of a message that the row does not depend on.
  datatype Filler = Filler(timers: seq<byte>, local: seq<byte>, remote: seq<byte>, middle: seq<byte>,
      attributes: seq<byte>)

  predicate Fills(m: Filler, s: Socket) {
    |m.timers| == 2 && |s.local + m.local| == 16 && |s.remote + m.remote| == 16 && |m.middle| == 24
  }

  function DiagHead(s: Socket, m: Filler): (h: seq<byte>)
    requires s.Valid() && Fills(m, s)
    ensures |h| == 8
  {
    [if s.v6 then 10 else 2, NumberOf(s.state)] + m.timers + PutBE16(s.localPort) + PutBE16(s.remotePort)
  }

  function DiagTail(s: Socket, m: Filler): (t: seq<byte>)
    requires s.Valid()
    ensures |t| == 8 + |m.attributes|
  {
    PutLE32(s.uid) + PutLE32(s.inode) + m.attributes
  }

  function DiagBody(s: Socket, m: Filler): seq<byte>
    requires s.Valid() && Fills(m, s)
  {
    DiagHead(s, m) + (s.local + m.local) + (s.remote + m.remote) + m.middle + DiagTail(s, m)
  }

  lemma DiagHeadDecodes(s: Socket, m: Filler)
    requires s.Valid() && Fills(m, s)
    ensures var b := DiagBody(s, m);
      && b[0] == (if s.v6 then 10 else 2) && b[1] == NumberOf(s.state)
      && BE16(b[4..]) == s.localPort && BE16(b[6..]) == s.remotePort
  {
    var b, h := DiagBody(s, m), DiagHead(s, m);
    assert b[..8] == h;
    assert h[4..6] == PutBE16(s.localPort) && h[6..8] == PutBE16(s.remotePort);
    assert b[4..][0] == h[4..6][0] && b[4..][1] == h[4..6][1] && b[6..][0] == h[6..8][0] && b[6..][1] == h[6..8][1];
  }

  lemma DiagTailDecodes(s: Socket, m: Filler)
    requires s.Valid() && Fills(m, s)
    ensures var b := DiagBody(s, m);
      |b| >= DIAG_MSG_LEN && LE32(b[64..]) == s.uid && LE32(b[68..]) == s.inode
  {
    var b, t := DiagBody(s, m), DiagTail(s, m);
    assert b[64..] == t && b[68..] == t[4..];
    assert t == PutLE32(s.uid) + (PutLE32(s.inode) + m.attributes);
    assert t[4..] == PutLE32(s.inode) + m.attributes;
    LE32OfPut(s.uid, PutLE32(s.inode) + m.attributes);
    LE32OfPut(s.inode, m.attributes);
  }

  lemma MessageDecodes(s: Socket, m: Filler, proto: Protocol)
    requires s.Valid() && Fills(m, s)
    ensures ParseDiagMsg(DiagBody(s, m), proto) == Some(RowFor(s, proto))
  {
    var b := DiagBody(s, m);
    StateIsRead(s, proto);
    DiagHeadDecodes(s, m);
    DiagTailDecodes(s, m);
    assert b[8..24] == s.local + m.local && b[24..40] == s.remote + m.remote;
    assert s.v6 ==> b[8..24] == s.local && b[24..40] == s.remote;
    assert !s.v6 ==> b[8..24][..4] == s.local && b[24..40][..4] == s.remote;
  }

  ghost predicate Tells(f: Frame, s: Socket) {
    f.kind !in {2, 3} && exists m :: Fills(m, s) && s.Valid() && f.body == DiagBody(s, m)
  }

  // ---- as a line ----

  // Every four bytes, taken as a native word, in eight digits.
  function AddressColumn(bytes: seq<byte>): (r: string)
    requires |bytes| % 4 == 0
    ensures |r| == 2 * |bytes| && ':' !in r
  {
    if bytes == [] then "" else
      HexIsPlain(LE32(bytes[..4]), 8);
      Hex(LE32(bytes[..4]), 8) + AddressColumn(bytes[4..])
  }

  function EndpointColumn(bytes: seq<byte>, port: nat): string
    requires |bytes| % 4 == 0
  {
    AddressColumn(bytes) + ":" + Hex(port, 4)
  }

  predicate Shows(words: seq<string>, s: Socket)
    requires s.Valid()
  {
    && |words| >= 10
    && words[1] == EndpointColumn(s.local, s.localPort) && words[2] == EndpointColumn(s.remote, s.remotePort)
    && words[3] == Hex(NumberOf(s.state), 2) && words[7] == Decimal(s.uid) && words[9] == Decimal(s.inode)
  }

  ghost predicate Prints(line: string, s: Socket) {
    s.Valid() && exists gaps, words, end ::
      Spaced(gaps, words, end) && Shows(words, s) && line == Layout(gaps, words, end)
  }

  lemma {:induction false} AddressColumnDecodes(bytes: seq<byte>)
    requires |bytes| % 4 == 0
    ensures HexDecode(AddressColumn(bytes)) == Some(ProcNet.WordsReversed(bytes))
  {
    if bytes != [] {
      var g, rest := bytes[..4], AddressColumn(bytes[4..]);
      HexDecodeWord(g);
      AddressColumnDecodes(bytes[4..]);
      HexDecodeAppend(Hex(LE32(g), 8), rest);
      assert HexDecode(AddressColumn(bytes)).value == ProcNet.WordsReversed(bytes);
    }
  }

  lemma ColonFound(a: string, rest: string)
    requires ':' !in a
    ensures IndexByte(a + ":" + rest, ':') == |a|
  {
    assert (a + ":" + rest)[|a|] == ':';
  }

  lemma EndpointDecodes(v6: bool, bytes: seq<byte>, port: nat)
    requires |bytes| == (if v6 then 16 else 4) && port < U16
    ensures ProcNet.HexAddrPort(EndpointColumn(bytes, port), v6) == Some(AddrPort(AddressOf(v6, bytes), port))
  {
    var a, c := AddressColumn(bytes), EndpointColumn(bytes, port);
    ColonFound(a, Hex(port, 4));
    assert c[..|a|] == a && c[|a| + 1..] == Hex(port, 4);
    AddressColumnDecodes(bytes);
    ProcNet.WordsReversedTwice(bytes);
    assert Room(4) == U16 by {
      assert Room(4) == 16 * Room(3) && Room(3) == 16 * Room(2) && Room(2) == 16 * Room(1);
    }
    ParseInvertsHex(port, 4, U16);
  }

  lemma WordsDecode(words: seq<string>, s: Socket, proto: Protocol)
    requires s.Valid() && Shows(words, s)
    ensures ProcNet.RowOf(words, proto, s.v6) == Some(RowFor(s, proto))
  {
    EndpointDecodes(s.v6, s.local, s.localPort);
    EndpointDecodes(s.v6, s.remote, s.remotePort);
    assert Room(2) == 0x100 by {
      assert Room(2) == 16 * Room(1) && Room(1) == 16 * Room(0);
    }
    ParseInvertsHex(NumberOf(s.state), 2, 0x100);
    StateIsRead(s, proto);
    ParseInvertsDecimal(s.uid, U32);
    ParseInvertsDecimal(s.inode, U64);
  }

  lemma LineDecodes(line: string, s: Socket, proto: Protocol)
    requires Prints(line, s)
    ensures ProcNet.RowOf(Fields(line), proto, s.v6) == Some(RowFor(s, proto))
  {
    var gaps, words, end :| Spaced(gaps, words, end) && Shows(words, s) && line == Layout(gaps, words, end);
    FieldsInvertLayout(gaps, words, end);
    WordsDecode(words, s, proto);
  }

  lemma LinesDecode(lines: seq<string>, sockets: seq<Socket>, proto: Protocol, v6: bool)
    requires |lines| == |sockets|
    requires forall i :: 0 <= i < |lines| ==> sockets[i].v6 == v6 && Prints(lines[i], sockets[i])
    ensures ProcNet.RowsOf(lines, proto, v6) == RowsFor(sockets, proto)
  {
    var f := ProcNet.LineReader(proto, v6);
    forall i | 0 <= i < |lines|
      ensures f(lines[i]) == Some(RowFor(sockets[i], proto))
    {
      LineDecodes(lines[i], sockets[i], proto);
    }
    ProcNet.FilterMapAll(f, lines, RowsFor(sockets, proto));
  }

  // ---- both ----

  // A dump of the sockets: a frame for each, then the terminator.
  ghost predicate Dumps(frames: seq<Frame>, sockets: seq<Socket>) {
    && |frames| == |sockets| + 1 && frames[|sockets|].kind == 3
    && forall i :: 0 <= i < |sockets| ==> Tells(frames[i], sockets[i])
  }

  lemma FrameDecodes(f: Frame, s: Socket, proto: Protocol)
    requires Tells(f, s)
    ensures Judge(f.kind, f.body, proto) == Yield(RowFor(s, proto))
  {
    var m :| Fills(m, s) && s.Valid() && f.body == DiagBody(s, m);
    MessageDecodes(s, m, proto);
  }

  lemma FramesDecode(frames: seq<Frame>, sockets: seq<Socket>, proto: Protocol)
    requires Dumps(frames, sockets)
    ensures Fold(frames, Judger(proto)) == Parsed(RowsFor(sockets, proto), true, None)
  {
    forall i | 0 <= i < |sockets|
      ensures Judge(frames[i].kind, frames[i].body, proto) == Yield(RowFor(sockets[i], proto))
    {
      FrameDecodes(frames[i], sockets[i], proto);
    }
    FoldRows(frames, Judger(proto), RowsFor(sockets, proto));
  }

  // The same sockets, dumped in any datagrams or printed in any layout under any
  // header, give the same rows.
  lemma SourcesAgree(sockets: seq<Socket>, header: string, lines: seq<string>, datagrams: seq<seq<Frame>>,
      replies: seq<Reply>, proto: Protocol, v6: bool)
    requires |lines| == |sockets|
    requires forall i :: 0 <= i < |sockets| ==> sockets[i].v6 == v6 && Prints(lines[i], sockets[i])
    requires Carries(replies, datagrams) && Dumps(Flatten(datagrams), sockets)
    ensures Gather(replies, Judger(proto), []) == Rows(RowsFor(sockets, proto))
    ensures ProcNet.RowsOf(ProcNet.AfterHeader([header] + lines), proto, v6) == RowsFor(sockets, proto)
  {
    FramesDecode(Flatten(datagrams), sockets, proto);
    SplitDoesNotMatter(replies, datagrams, Judger(proto), []);
    assert [] + RowsFor(sockets, proto) == RowsFor(sockets, proto);
    LinesDecode(lines, sockets, proto, v6);
    assert ([header] + lines)[1..] == lines;
  }
}
