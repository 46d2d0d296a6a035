// Socket rows compared as multisets.
module SockRows {
  import opened Model
  import opened Positions

  datatype SockRow = SockRow(protocol: Protocol, local: AddrPort, remote: AddrPort, state: SocketState, pid: nat,
      name: string)

  datatype Key = Key(protocol: Protocol, local: AddrPort, remote: AddrPort)

  // ---- keys ----

  predicate MappedV4(a: Addr) {
    a.V6? && |a.bytes| == 16 && a.bytes[..12] == [0, 0, 0, 0, 0, 0, 0, 0, 0, 0, 0xFF, 0xFF]
  }

  function Unmap(a: Addr): Addr {
    if MappedV4(a) then V4(a.bytes[12..]) else a
  }

  function WithoutZone(a: Addr): Addr {
    if a.V6? then V6(a.bytes, "") else a
  }

  function NormAddrPort(ap: AddrPort): AddrPort {
    if ap.addr == NoAddr then AddrPort(NoAddr, 0) else AddrPort(WithoutZone(Unmap(ap.addr)), ap.port)
  }

  function KeyOf(r: SockRow): Key {
    Key(r.protocol, NormAddrPort(r.local), NormAddrPort(r.remote))
  }

  // Two tables may write one endpoint in different ways: neither the zone nor
  // the mapped form of a v4 address tells them apart.
  lemma NormIgnoresSpelling(b: seq<nat>, zone: string, v4: seq<nat>, port: nat)
    requires |v4| == 4
    ensures NormAddrPort(AddrPort(V6(b, zone), port)) == NormAddrPort(AddrPort(V6(b, ""), port))
    ensures NormAddrPort(AddrPort(V6([0, 0, 0, 0, 0, 0, 0, 0, 0, 0, 0xFF, 0xFF] + v4, zone), port)) ==
      AddrPort(V4(v4), port)
    ensures NormAddrPort(NormAddrPort(AddrPort(V6(b, zone), port))) == NormAddrPort(AddrPort(V6(b, zone), port))
  {
    var m := [0, 0, 0, 0, 0, 0, 0, 0, 0, 0, 0xFF, 0xFF] + v4;
    assert m[..12] == [0, 0, 0, 0, 0, 0, 0, 0, 0, 0, 0xFF, 0xFF] && m[12..] == v4;
  }

  // The same address, whichever way it is written.
  predicate SameAddr(a: Addr, b: Addr) {
    match (a, b)
    case (NoAddr, NoAddr) => true
    case (V4(x), V4(y)) => x == y
    case (V6(x, _), V6(y, _)) => x == y
    case (V4(x), V6(y, _)) => |x| == 4 && y == [0, 0, 0, 0, 0, 0, 0, 0, 0, 0, 255, 255] + x
    case (V6(x, _), V4(y)) => |y| == 4 && x == [0, 0, 0, 0, 0, 0, 0, 0, 0, 0, 255, 255] + y
    case _ => false
  }

  // The port of no address does not matter.
  predicate SameEndpoint(a: AddrPort, b: AddrPort) {
    SameAddr(a.addr, b.addr) && (a.addr != NoAddr ==> a.port == b.port)
  }

  lemma Mapped(a: Addr, b: Addr)
    ensures MappedV4(a) ==> a.bytes == [0, 0, 0, 0, 0, 0, 0, 0, 0, 0, 255, 255] + a.bytes[12..]
    ensures a.V6? && b.V4? && SameAddr(a, b) ==> MappedV4(a) && a.bytes[12..] == b.bytes
  {
    if a.V6? && b.V4? && SameAddr(a, b) {
      assert a.bytes[..12] == [0, 0, 0, 0, 0, 0, 0, 0, 0, 0, 255, 255];
    }
  }

  lemma NormAgreesIff(a: AddrPort, b: AddrPort)
    ensures NormAddrPort(a) == NormAddrPort(b) <==> SameEndpoint(a, b)
  {
    Mapped(a.addr, b.addr);
    Mapped(b.addr, a.addr);
  }

  // Two rows have one key exactly when the protocol, both ports and both addresses
  // agree.
  lemma KeysAgreeIff(a: SockRow, b: SockRow)
    ensures KeyOf(a) == KeyOf(b) <==>
      a.protocol == b.protocol && SameEndpoint(a.local, b.local) && SameEndpoint(a.remote, b.remote)
  {
    NormAgreesIff(a.local, b.local);
    NormAgreesIff(a.remote, b.remote);
  }

  // ---- rows by key ----

  function Filter<T>(p: T -> bool, s: seq<T>): (r: seq<T>)
    ensures |r| <= |s|
  {
    if s == [] then []
    else
      var init, x := s[..|s| - 1], s[|s| - 1];
      if p(x) then Filter(p, init) + [x] else Filter(p, init)
  }

  function Drop<T>(s: seq<T>, n: nat): seq<T> {
    if n <= |s| then s[n..] else []
  }

  function Last<T>(s: seq<T>, n: nat): seq<T> {
    if n <= |s| then s[|s| - n..] else s
  }

  function HasKey(k: Key): SockRow -> bool {
    r => KeyOf(r) == k
  }

  function OfKey(rows: seq<SockRow>, k: Key): seq<SockRow> {
    Filter(HasKey(k), rows)
  }

  function Count(rows: seq<SockRow>, k: Key): nat {
    |OfKey(rows, k)|
  }

  // ---- the difference ----

  // A row stays when the rows of its key before it already use up what is owned.
  function Unowned(table: seq<SockRow>, owned: seq<SockRow>): seq<SockRow> {
    if table == [] then []
    else
      var init, row := table[..|table| - 1], table[|table| - 1];
      if Count(init, KeyOf(row)) >= Count(owned, KeyOf(row)) then Unowned(init, owned) + [row] else Unowned(init, owned)
  }

  function Left(left: map<Key, nat>, k: Key): nat {
    if k in left then left[k] else 0
  }

  function Minus(a: nat, b: nat): nat {
    if a >= b then a - b else 0
  }

  lemma FilterSnoc<T>(p: T -> bool, s: seq<T>, x: T)
    ensures Filter(p, s + [x]) == if p(x) then Filter(p, s) + [x] else Filter(p, s)
  {
    assert (s + [x])[..|s|] == s;
  }

  // The places in s where p holds, in order.
  predicate Places<T>(p: T -> bool, s: seq<T>, at: seq<nat>) {
    && (forall j :: 0 <= j < |at| ==> at[j] < |s| && p(s[at[j]]))
    && (forall i, j :: 0 <= i < j < |at| ==> at[i] < at[j])
    && (forall i :: 0 <= i < |s| && p(s[i]) ==> i in at)
  }

  function Chosen<T>(p: T -> bool, s: seq<T>): nat -> bool {
    (i: nat) => i < |s| && p(s[i])
  }

  lemma FilterPicksNext<T>(p: T -> bool, s: seq<T>, n: nat)
    requires n < |s| && Filter(p, s[..n]) == Pick(Chosen(p, s), s[..n])
    ensures Filter(p, s[..n + 1]) == Pick(Chosen(p, s), s[..n + 1])
  {
    FilterSnoc(p, s[..n], s[n]);
    PickSnoc(Chosen(p, s), s[..n], s[n]);
    assert s[..n + 1] == s[..n] + [s[n]];
  }

  lemma {:induction false} FilterPicks<T>(p: T -> bool, s: seq<T>, n: nat)
    requires n <= |s|
    ensures Filter(p, s[..n]) == Pick(Chosen(p, s), s[..n])
  {
    if n > 0 {
      FilterPicks(p, s, n - 1);
      FilterPicksNext(p, s, n - 1);
    }
  }

  // A filtered sequence is what stands at those places.
  lemma FilterPlaces<T>(p: T -> bool, s: seq<T>) returns (at: seq<nat>)
    ensures Places(p, s, at) && |at| == |Filter(p, s)|
    ensures forall j :: 0 <= j < |at| ==> Filter(p, s)[j] == s[at[j]]
  {
    var q := Chosen(p, s);
    at := Where(q, |s|);
    FilterPicks(p, s, |s|);
    assert s[..|s|] == s;
    PickedAt(q, s);
    WhereAscends(q, |s|);
    forall i | 0 <= i < |s| && p(s[i])
      ensures i in at
    {
      WhereHolds(q, |s|, i);
    }
  }

  lemma CountSnoc(rows: seq<SockRow>, row: SockRow)
    ensures forall k :: Count(rows + [row], k) == Count(rows, k) + if KeyOf(row) == k then 1 else 0
  {
    forall k
      ensures Count(rows + [row], k) == Count(rows, k) + if KeyOf(row) == k then 1 else 0
    {
      FilterSnoc(HasKey(k), rows, row);
    }
  }

  method CountOwned(owned: seq<SockRow>) returns (left: map<Key, nat>)
    ensures forall k :: Left(left, k) == Count(owned, k)
  {
    left := map[];
    for i := 0 to |owned|
      invariant forall k :: Left(left, k) == Count(owned[..i], k)
    {
      CountSnoc(owned[..i], owned[i]);
      assert owned[..i + 1] == owned[..i] + [owned[i]];
      var k := KeyOf(owned[i]);
      left := left[k := Left(left, k) + 1];
    }
    assert owned[..|owned|] == owned;
  }

  lemma UnownedSnoc(init: seq<SockRow>, row: SockRow, owned: seq<SockRow>)
    ensures Unowned(init + [row], owned) ==
      if Count(init, KeyOf(row)) >= Count(owned, KeyOf(row)) then Unowned(init, owned) + [row] else Unowned(init, owned)
  {
    assert (init + [row])[..|init|] == init;
  }

  // How many rows of each key are still to be taken away.
  ghost predicate Tracks(left: map<Key, nat>, owned: seq<SockRow>, seen: seq<SockRow>) {
    forall k :: Left(left, k) == Minus(Count(owned, k), Count(seen, k))
  }

  lemma Tracked(left: map<Key, nat>, owned: seq<SockRow>, seen: seq<SockRow>, row: SockRow)
    requires Tracks(left, owned, seen)
    ensures Left(left, KeyOf(row)) > 0 <==> Count(seen, KeyOf(row)) < Count(owned, KeyOf(row))
    ensures Left(left, KeyOf(row)) == 0 ==> Tracks(left, owned, seen + [row])
    ensures Left(left, KeyOf(row)) > 0 ==> Tracks(left[KeyOf(row) := Left(left, KeyOf(row)) - 1], owned, seen + [row])
  {
    CountSnoc(seen, row);
  }

  lemma OneRowMore(left: map<Key, nat>, owned: seq<SockRow>, table: seq<SockRow>, i: nat)
    requires i < |table| && Tracks(left, owned, table[..i])
    ensures var k := KeyOf(table[i]);
      Tracks(if Left(left, k) > 0 then left[k := Left(left, k) - 1] else left, owned, table[..i + 1])
    ensures Unowned(table[..i + 1], owned) ==
      if Left(left, KeyOf(table[i])) > 0 then Unowned(table[..i], owned) else Unowned(table[..i], owned) + [table[i]]
  {
    Tracked(left, owned, table[..i], table[i]);
    UnownedSnoc(table[..i], table[i], owned);
    assert table[..i + 1] == table[..i] + [table[i]];
  }

  method UnownedRows(table: seq<SockRow>, owned: seq<SockRow>) returns (out: seq<SockRow>)
    ensures out == Unowned(table, owned)
  {
    var left: map<Key, nat> := CountOwned(owned);
    out := [];
    for i := 0 to |table|
      invariant Tracks(left, owned, table[..i])
      invariant out == Unowned(table[..i], owned)
    {
      OneRowMore(left, owned, table, i);
      var k := KeyOf(table[i]);
      if Left(left, k) > 0 {
        left := left[k := Left(left, k) - 1];
      } else {
        out := out + [table[i]];
      }
    }
    assert table[..|table|] == table;
  }

  lemma DropSnoc<T>(s: seq<T>, x: T, n: nat)
    ensures Drop(s + [x], n) == if |s| >= n then Drop(s, n) + [x] else Drop(s, n)
  {
  }

  // Of every key, the first rows go, as many as are owned, and the others stay.
  lemma {:induction false} UnownedDropsOwned(table: seq<SockRow>, owned: seq<SockRow>, k: Key)
    ensures OfKey(Unowned(table, owned), k) == Drop(OfKey(table, k), Count(owned, k))
    decreases |table|
  {
    if table != [] {
      var init, row := table[..|table| - 1], table[|table| - 1];
      UnownedDropsOwned(init, owned, k);
      assert table == init + [row];
      UnownedSnoc(init, row, owned);
      var before := Unowned(init, owned);
      FilterSnoc(HasKey(k), init, row);
      FilterSnoc(HasKey(k), before, row);
      if KeyOf(row) == k {
        DropSnoc(OfKey(init, k), row, Count(owned, k));
      }
    }
  }

  lemma {:induction false} UnownedCounts(table: seq<SockRow>, owned: seq<SockRow>, k: Key)
    ensures Count(Unowned(table, owned), k) == Minus(Count(table, k), Count(owned, k))
  {
    UnownedDropsOwned(table, owned, k);
  }

  // The rows of its key before row i already use up what is owned.
  predicate Stays(table: seq<SockRow>, owned: seq<SockRow>, i: nat)
    requires i < |table|
  {
    Count(table[..i], KeyOf(table[i])) >= Count(owned, KeyOf(table[i]))
  }

  function Staying(table: seq<SockRow>, owned: seq<SockRow>): nat -> bool {
    (i: nat) => i < |table| && Stays(table, owned, i)
  }

  lemma UnownedPicksNext(table: seq<SockRow>, owned: seq<SockRow>, n: nat)
    requires n < |table| && Unowned(table[..n], owned) == Pick(Staying(table, owned), table[..n])
    ensures Unowned(table[..n + 1], owned) == Pick(Staying(table, owned), table[..n + 1])
  {
    UnownedSnoc(table[..n], table[n], owned);
    PickSnoc(Staying(table, owned), table[..n], table[n]);
    assert table[..n + 1] == table[..n] + [table[n]];
  }

  lemma {:induction false} UnownedPicks(table: seq<SockRow>, owned: seq<SockRow>, n: nat)
    requires n <= |table|
    ensures Unowned(table[..n], owned) == Pick(Staying(table, owned), table[..n])
  {
    if n > 0 {
      UnownedPicks(table, owned, n - 1);
      UnownedPicksNext(table, owned, n - 1);
    }
  }

  // The rows that stay are those of the table, untouched and in its order, at
  // exactly the positions where they stay.
  lemma UnownedIsSubsequence(table: seq<SockRow>, owned: seq<SockRow>)
    ensures var at, rows := Where(Staying(table, owned), |table|), Unowned(table, owned);
      && |at| == |rows| && (forall j :: 0 <= j < |at| ==> at[j] < |table| && rows[j] == table[at[j]])
      && (forall i, j :: 0 <= i < j < |at| ==> at[i] < at[j])
      && (forall i :: 0 <= i < |table| ==> (i in at <==> Stays(table, owned, i)))
  {
    var p := Staying(table, owned);
    UnownedPicks(table, owned, |table|);
    assert table[..|table|] == table;
    PickedAt(p, table);
    WhereAscends(p, |table|);
    forall i | 0 <= i < |table|
      ensures i in Where(p, |table|) <==> Stays(table, owned, i)
    {
      WhereHolds(p, |table|, i);
    }
  }

  // Taking away what a second table lacks leaves what both have: of every key
  // the last rows, as many as both tables can show.
  lemma RecheckIntersects(orphans: seq<SockRow>, recent: seq<SockRow>, k: Key)
    ensures OfKey(Unowned(orphans, Unowned(orphans, recent)), k) == Last(OfKey(orphans, k), Count(recent, k))
  {
    UnownedDropsOwned(orphans, recent, k);
    UnownedDropsOwned(orphans, Unowned(orphans, recent), k);
  }
}
