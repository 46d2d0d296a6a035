// The /proc/net socket tables: the scanning loop and the row decoder.
module ProcNet {
  import opened Model
  import opened Bytes
  import opened Text
  import InetDiag

  type Row = InetDiag.Row

  function AddressDigits(v6: bool): nat {
    if v6 then 32 else 8
  }

  // The bytes with every group of four reversed.
  function WordsReversed(raw: seq<byte>): (r: seq<byte>)
    requires |raw| % 4 == 0
    ensures |r| == |raw|
  {
    if raw == [] then [] else [raw[3], raw[2], raw[1], raw[0]] + WordsReversed(raw[4..])
  }

  lemma {:induction false} WordsReversedTwice(raw: seq<byte>)
    requires |raw| % 4 == 0
    ensures WordsReversed(WordsReversed(raw)) == raw
  {
    if raw != [] {
      WordsReversedTwice(raw[4..]);
      assert WordsReversed(raw)[4..] == WordsReversed(raw[4..]);
    }
  }

  lemma {:induction false} WordsReversedSnoc(raw: seq<byte>, w0: byte, w1: byte, w2: byte, w3: byte)
    requires |raw| % 4 == 0
    ensures WordsReversed(raw + [w0, w1, w2, w3]) == WordsReversed(raw) + [w3, w2, w1, w0]
  {
    if raw != [] {
      WordsReversedSnoc(raw[4..], w0, w1, w2, w3);
      assert (raw + [w0, w1, w2, w3])[4..] == raw[4..] + [w0, w1, w2, w3];
    }
  }

  // What an "ADDRESS:PORT" column means.
  function HexAddrPort(s: string, v6: bool): Option<AddrPort> {
    var i := IndexByte(s, ':');
    if i != AddressDigits(v6) then None
    else
      match HexDecode(s[..i])
      case None => None
      case Some(raw) =>
        match ParseUint(s[i + 1..], 16, U16)
        case None => None
        case Some(port) =>
          Some(AddrPort(if v6 then V6(WordsReversed(raw), "") else V4(WordsReversed(raw)), port))
  }

  // The bytes with the group at w reversed.
  function Turned(s: seq<byte>, w: nat): seq<byte>
    requires w + 4 <= |s|
  {
    s[..w] + [s[w + 3], s[w + 2], s[w + 1], s[w]] + s[w + 4..]
  }

  method Reverse4(b: array<byte>, w: nat)
    requires w + 4 <= b.Length
    modifies b
    ensures b[..] == Turned(old(b[..]), w)
  {
    b[w], b[w + 1], b[w + 2], b[w + 3] := b[w + 3], b[w + 2], b[w + 1], b[w];
  }

  ghost function HalfReversed(was: seq<byte>, w: nat): (r: seq<byte>)
    requires w % 4 == 0 && w <= |was|
    ensures |r| == |was|
    ensures w == 0 ==> r == was
    ensures w == |was| ==> r == WordsReversed(was)
  {
    assert w == |was| ==> was[..w] == was;
    WordsReversed(was[..w]) + was[w..]
  }

  lemma WholeWord(n: nat, w: nat)
    requires n % 4 == 0 && w % 4 == 0 && w < n
    ensures w + 4 <= n && (w + 4) % 4 == 0
  {
  }

  lemma OneMoreWord(was: seq<byte>, w: nat)
    requires w % 4 == 0 && w + 4 <= |was|
    ensures Turned(HalfReversed(was, w), w) == HalfReversed(was, w + 4)
  {
    assert was[..w + 4] == was[..w] + [was[w], was[w + 1], was[w + 2], was[w + 3]];
    WordsReversedSnoc(was[..w], was[w], was[w + 1], was[w + 2], was[w + 3]);
  }

  method ReverseWords(raw: array<byte>)
    requires raw.Length % 4 == 0
    modifies raw
    ensures raw[..] == WordsReversed(old(raw[..]))
  {
    ghost var was := raw[..];
    var w := 0;
    while w < raw.Length
      invariant w % 4 == 0 && w <= raw.Length
      invariant raw[..] == HalfReversed(was, w)
    {
      WholeWord(raw.Length, w);
      OneMoreWord(was, w);
      Reverse4(raw, w);
      w := w + 4;
    }
  }

  method ParseHexAddrPort(s: string, v6: bool) returns (r: Option<AddrPort>)
    ensures r == HexAddrPort(s, v6)
  {
    var i := IndexByte(s, ':');
    if i < 0 {
      return None;
    }
    var hexAddr, hexPort := s[..i], s[i + 1..];
    var wantLen := 8;
    if v6 {
      wantLen := 32;
    }
    if |hexAddr| != wantLen {
      return None;
    }
    var decoded := HexDecode(hexAddr);
    if decoded == None {
      return None;
    }
    var raw := new byte[|decoded.value|](k requires 0 <= k < |decoded.value| => decoded.value[k]);
    assert raw[..] == decoded.value;
    ReverseWords(raw);
    var port := ParseUint(hexPort, 16, U16);
    if port == None {
      return None;
    }
    return Some(AddrPort(if v6 then V6(raw[..], "") else V4(raw[..]), port.value));
  }

  // The row a line stands for, given the words on it.
  function RowOf(f: seq<string>, proto: Protocol, v6: bool): Option<Row> {
    if |f| < 10 then None
    else
      var local, remote := HexAddrPort(f[1], v6), HexAddrPort(f[2], v6);
      var st, uid, inode := ParseUint(f[3], 16, 0x100), ParseUint(f[7], 10, U32), ParseUint(f[9], 10, U64);
      if local == None || remote == None || st == None || uid == None || inode == None then None
      else
        var state := InetDiag.StateOf(proto, st.value, remote.value);
        Some(InetDiag.Row(local.value, remote.value, state, uid.value, inode.value))
  }

  // ---- which lines are read ----

  predicate HexText(s: string, limit: nat) {
    s != "" && (forall i :: 0 <= i < |s| ==> HexChar(s[i])) && Value(s, 16) < limit
  }

  predicate DecimalText(s: string, limit: nat) {
    s != "" && (forall i :: 0 <= i < |s| ==> '0' <= s[i] <= '9') && Value(s, 10) < limit
  }

  // An address of 8 digits, or 32, a colon, and a port.
  predicate EndpointText(s: string, v6: bool) {
    var n := if v6 then 32 else 8;
    && |s| > n && s[n] == ':' && (forall i :: 0 <= i < n ==> HexChar(s[i])) && HexText(s[n + 1..], 65_536)
  }

  lemma NumeralsAreTexts(s: string)
    ensures Numeral(s, 16) <==> s != "" && forall i :: 0 <= i < |s| ==> HexChar(s[i])
    ensures Numeral(s, 10) <==> s != "" && forall i :: 0 <= i < |s| ==> '0' <= s[i] <= '9'
  {
    forall i | 0 <= i < |s|
      ensures (Digit(s[i]) < 16 <==> HexChar(s[i])) && (Digit(s[i]) < 10 <==> '0' <= s[i] <= '9')
    {
      DigitsOfBases(s[i]);
    }
  }

  lemma {:induction false} FirstIndex(s: string, c: char, n: nat)
    requires n < |s| && s[n] == c && forall i :: 0 <= i < n ==> s[i] != c
    ensures IndexByte(s, c) == n
  {
    if n > 0 {
      FirstIndex(s[1..], c, n - 1);
    }
  }

  lemma EndpointRead(s: string, v6: bool)
    requires HexAddrPort(s, v6).Some?
    ensures EndpointText(s, v6)
  {
    var i := IndexByte(s, ':');
    HexDecodesIff(s[..i]);
    NumeralsAreTexts(s[i + 1..]);
    assert forall j :: 0 <= j < i ==> s[..i][j] == s[j];
  }

  lemma EndpointIsRead(s: string, v6: bool)
    requires EndpointText(s, v6)
    ensures HexAddrPort(s, v6).Some?
  {
    var n := if v6 then 32 else 8;
    forall i | 0 <= i < n
      ensures s[i] != ':'
    {
      assert HexChar(s[i]);
    }
    FirstIndex(s, ':', n);
    HexDecodesIff(s[..n]);
    NumeralsAreTexts(s[n + 1..]);
  }

  lemma EndpointReadIff(s: string, v6: bool)
    ensures HexAddrPort(s, v6).Some? <==> EndpointText(s, v6)
  {
    if HexAddrPort(s, v6).Some? {
      EndpointRead(s, v6);
    }
    if EndpointText(s, v6) {
      EndpointIsRead(s, v6);
    }
  }

  // A line is read exactly when it has ten words, both endpoints and the state are
  // of the right form, and UID and inode fit.
  lemma RowReadIff(f: seq<string>, proto: Protocol, v6: bool)
    ensures RowOf(f, proto, v6).Some? <==>
      && |f| >= 10 && EndpointText(f[1], v6) && EndpointText(f[2], v6) && HexText(f[3], 256)
      && DecimalText(f[7], 0x1_0000_0000) && DecimalText(f[9], 0x1_0000_0000_0000_0000)
  {
    if |f| >= 10 {
      EndpointReadIff(f[1], v6);
      EndpointReadIff(f[2], v6);
      NumeralsAreTexts(f[3]);
      NumeralsAreTexts(f[7]);
      NumeralsAreTexts(f[9]);
    }
  }

  // What f makes of the elements, where it makes something of them.
  function FilterMap<T, U>(f: T -> Option<U>, xs: seq<T>): seq<U> {
    if xs == [] then []
    else
      match f(xs[0])
      case None => FilterMap(f, xs[1..])
      case Some(y) => [y] + FilterMap(f, xs[1..])
  }

  lemma {:induction false} FilterMapAppend<T, U>(f: T -> Option<U>, xs: seq<T>, more: seq<T>)
    ensures FilterMap(f, xs + more) == FilterMap(f, xs) + FilterMap(f, more)
  {
    if xs == [] {
      assert xs + more == more;
    } else {
      FilterMapAppend(f, xs[1..], more);
      assert (xs + more)[1..] == xs[1..] + more && (xs + more)[0] == xs[0];
      if f(xs[0]).Some? {
        var a, b := FilterMap(f, xs[1..]), FilterMap(f, more);
        assert [f(xs[0]).value] + (a + b) == [f(xs[0]).value] + a + b;
      }
    }
  }

  lemma FilterMapSnoc<T, U>(f: T -> Option<U>, xs: seq<T>, x: T)
    ensures FilterMap(f, xs + [x]) == match f(x) case None => FilterMap(f, xs) case Some(y) => FilterMap(f, xs) + [y]
  {
    FilterMapAppend(f, xs, [x]);
    assert [x][1..] == [];
  }

  // One element that is nothing to f hides no other.
  lemma FilterMapSkip<T, U>(f: T -> Option<U>, before: seq<T>, x: T, after: seq<T>)
    requires f(x) == None
    ensures FilterMap(f, before + [x] + after) == FilterMap(f, before + after)
  {
    FilterMapSnoc(f, before, x);
    FilterMapAppend(f, before + [x], after);
    FilterMapAppend(f, before, after);
  }

  lemma {:induction false} FilterMapAll<T, U>(f: T -> Option<U>, xs: seq<T>, ys: seq<U>)
    requires |ys| == |xs| && forall i :: 0 <= i < |xs| ==> f(xs[i]) == Some(ys[i])
    ensures FilterMap(f, xs) == ys
  {
    if xs != [] {
      FilterMapAll(f, xs[1..], ys[1..]);
      assert ys == [ys[0]] + ys[1..];
    }
  }

  function LineReader(proto: Protocol, v6: bool): string -> Option<Row> {
    line => RowOf(Fields(line), proto, v6)
  }

  // The rows of the lines that parse, in order.
  function RowsOf(lines: seq<string>, proto: Protocol, v6: bool): seq<Row> {
    FilterMap(LineReader(proto, v6), lines)
  }

  method ParseLine(line: string, proto: Protocol, v6: bool) returns (r: Option<Row>)
    ensures r == RowOf(Fields(line), proto, v6)
  {
    var f := Fields(line);
    if |f| < 10 {
      return None;
    }
    var local := ParseHexAddrPort(f[1], v6);
    if local == None {
      return None;
    }
    var remote := ParseHexAddrPort(f[2], v6);
    if remote == None {
      return None;
    }
    var st := ParseUint(f[3], 16, 0x100);
    if st == None {
      return None;
    }
    var uid := ParseUint(f[7], 10, U32);
    if uid == None {
      return None;
    }
    var inode := ParseUint(f[9], 10, U64);
    if inode == None {
      return None;
    }
    var state := InetDiag.StateOf(proto, st.value, remote.value);
    return Some(InetDiag.Row(local.value, remote.value, state, uid.value, inode.value));
  }

  function AfterHeader(lines: seq<string>): seq<string> {
    if lines == [] then [] else lines[1..]
  }

  lemma OneMoreLine(lines: seq<string>, i: nat, reader: string -> Option<Row>)
    requires 0 < i < |lines|
    ensures FilterMap(reader, AfterHeader(lines[..i + 1])) ==
      match reader(lines[i])
      case None => FilterMap(reader, AfterHeader(lines[..i]))
      case Some(row) => FilterMap(reader, AfterHeader(lines[..i])) + [row]
  {
    assert lines[..i + 1][1..] == lines[..i][1..] + [lines[i]];
    FilterMapSnoc(reader, lines[..i][1..], lines[i]);
  }

  // The lines the scanner delivers, then its error, if it met one.
  method ParseProcNet(lines: seq<string>, scanErr: Option<int>, proto: Protocol, v6: bool)
    returns (r: Result<seq<Row>, int>)
    ensures r == if scanErr.Some? then Err(scanErr.value) else Ok(RowsOf(AfterHeader(lines), proto, v6))
  {
    var out: seq<Row> := [];
    var first := true;
    for i := 0 to |lines|
      invariant first <==> i == 0
      invariant out == RowsOf(AfterHeader(lines[..i]), proto, v6)
    {
      if first {
        first := false;
        assert AfterHeader(lines[..1]) == [];
        continue;
      }
      OneMoreLine(lines, i, LineReader(proto, v6));
      var row := ParseLine(lines[i], proto, v6);
      if row.Some? {
        out := out + [row.value];
      }
    }
    if scanErr.Some? {
      return Err(scanErr.value);
    }
    assert lines[..|lines|] == lines;
    return Ok(out);
  }
}
