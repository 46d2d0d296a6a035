// The macOS listing: the owned sockets with their processes, then the sockets
// nobody owns, checked once more against a second table.
module MacListing {
  import opened Model
  import opened SockRows

  // What the system answers while the listing is made. Details depends on when
  // it is asked: it is numbered by the wanted row that asks.
  datatype Answers = Answers(
    table: Result<seq<SockRow>, int>, owned: Result<seq<SockRow>, int>, recent: Result<seq<SockRow>, int>,
    details: (nat, nat, string) -> ProcMeta)

  function ToBinding(r: SockRow): Binding {
    Binding(r.local, r.protocol, r.state, 0, None)
  }

  function Wanted(wanted: Binding -> bool): SockRow -> bool {
    r => wanted(ToBinding(r))
  }

  function ToBindings(rows: seq<SockRow>): (bs: seq<Binding>)
    ensures |bs| == |rows| && forall i :: 0 <= i < |rows| ==> bs[i] == ToBinding(rows[i])
  {
    seq(|rows|, i requires 0 <= i < |rows| => ToBinding(rows[i]))
  }

  // ---- the owned sockets ----

  // The first row of a process, or the number of rows.
  function FirstOf(rows: seq<SockRow>, pid: nat): (i: nat)
    ensures i <= |rows|
    ensures forall j :: 0 <= j < i ==> rows[j].pid != pid
    ensures i < |rows| ==> rows[i].pid == pid
  {
    if rows == [] || rows[0].pid == pid then 0 else
      assert forall j :: 0 < j < |rows| ==> rows[j] == rows[1..][j - 1];
      1 + FirstOf(rows[1..], pid)
  }

  // A process is described once, as its first row finds it.
  function DetailsOf(a: Answers, rows: seq<SockRow>, pid: nat): Option<ProcMeta> {
    var i := FirstOf(rows, pid);
    if i < |rows| then Some(a.details(i, pid, rows[i].name)) else None
  }

  function WithDetails(a: Answers, rows: seq<SockRow>): (bs: seq<Binding>)
    ensures |bs| == |rows|
    ensures forall i :: 0 <= i < |rows| ==> bs[i] == ToBinding(rows[i]).(proc := DetailsOf(a, rows, rows[i].pid))
  {
    seq(|rows|, i requires 0 <= i < |rows| => ToBinding(rows[i]).(proc := DetailsOf(a, rows, rows[i].pid)))
  }

  lemma FirstOfSnoc(rows: seq<SockRow>, row: SockRow, pid: nat)
    ensures FirstOf(rows + [row], pid) ==
      if FirstOf(rows, pid) < |rows| || row.pid == pid then FirstOf(rows, pid) else |rows| + 1
  {
    var i, i' := FirstOf(rows, pid), FirstOf(rows + [row], pid);
    assert forall j :: 0 <= j < |rows| ==> (rows + [row])[j] == rows[j];
    assert (rows + [row])[|rows|] == row;
  }

  ghost predicate Caches(cache: map<nat, ProcMeta>, a: Answers, rows: seq<SockRow>) {
    forall pid :: DetailsOf(a, rows, pid) == if pid in cache then Some(cache[pid]) else None
  }

  lemma DetailsOfSnoc(a: Answers, rows: seq<SockRow>, row: SockRow, pid: nat)
    ensures DetailsOf(a, rows + [row], pid) ==
      if DetailsOf(a, rows, pid) == None && pid == row.pid then Some(a.details(|rows|, pid, row.name))
      else DetailsOf(a, rows, pid)
  {
    FirstOfSnoc(rows, row, pid);
  }

  lemma OneMoreOwner(a: Answers, rows: seq<SockRow>, row: SockRow, cache: map<nat, ProcMeta>)
    requires Caches(cache, a, rows)
    ensures var meta := if row.pid in cache then cache[row.pid] else a.details(|rows|, row.pid, row.name);
      && Caches(cache[row.pid := meta], a, rows + [row])
      && WithDetails(a, rows + [row]) == WithDetails(a, rows) + [ToBinding(row).(proc := Some(meta))]
  {
    forall pid
      ensures DetailsOf(a, rows + [row], pid) ==
        if DetailsOf(a, rows, pid) == None && pid == row.pid then Some(a.details(|rows|, pid, row.name))
        else DetailsOf(a, rows, pid)
    {
      DetailsOfSnoc(a, rows, row, pid);
    }
    forall i | 0 <= i < |rows|
      ensures WithDetails(a, rows + [row])[i] == WithDetails(a, rows)[i]
    {
      assert DetailsOf(a, rows, rows[i].pid).Some?;
    }
  }

  lemma OneMoreRow(rows: seq<SockRow>, wanted: Binding -> bool, i: nat)
    requires i < |rows|
    ensures Filter(Wanted(wanted), rows[..i + 1]) ==
      if wanted(ToBinding(rows[i])) then Filter(Wanted(wanted), rows[..i]) + [rows[i]]
      else Filter(Wanted(wanted), rows[..i])
  {
    FilterSnoc(Wanted(wanted), rows[..i], rows[i]);
    assert rows[..i + 1] == rows[..i] + [rows[i]];
  }

  // What the loop below has made of the first i rows.
  ghost predicate ListedSoFar(a: Answers, owned: seq<SockRow>, wanted: Binding -> bool, i: nat, asked: nat,
      cache: map<nat, ProcMeta>, out: seq<Binding>) {
    && i <= |owned|
    && var rows := Filter(Wanted(wanted), owned[..i]);
       asked == |rows| && Caches(cache, a, rows) && out == WithDetails(a, rows)
  }

  lemma OneMoreListed(a: Answers, owned: seq<SockRow>, wanted: Binding -> bool, i: nat, asked: nat,
      cache: map<nat, ProcMeta>, out: seq<Binding>)
    requires i < |owned| && ListedSoFar(a, owned, wanted, i, asked, cache, out)
    ensures var r := owned[i];
      var meta := if r.pid in cache then cache[r.pid] else a.details(asked, r.pid, r.name);
      if wanted(ToBinding(r))
      then ListedSoFar(a, owned, wanted, i + 1, asked + 1, cache[r.pid := meta],
        out + [ToBinding(r).(proc := Some(meta))])
      else ListedSoFar(a, owned, wanted, i + 1, asked, cache, out)
  {
    OneMoreRow(owned, wanted, i);
    OneMoreOwner(a, Filter(Wanted(wanted), owned[..i]), owned[i], cache);
  }

  method ListOwned(a: Answers, owned: seq<SockRow>, wanted: Binding -> bool) returns (out: seq<Binding>)
    ensures out == WithDetails(a, Filter(Wanted(wanted), owned))
  {
    var metaCache: map<nat, ProcMeta> := map[];
    out := [];
    var asked := 0;
    for i := 0 to |owned|
      invariant ListedSoFar(a, owned, wanted, i, asked, metaCache, out)
    {
      OneMoreListed(a, owned, wanted, i, asked, metaCache, out);
      var r := owned[i];
      var b := ToBinding(r);
      if !wanted(b) {
        continue;
      }
      var meta := if r.pid in metaCache then metaCache[r.pid] else a.details(asked, r.pid, r.name);
      metaCache := metaCache[r.pid := meta];
      asked := asked + 1;
      out := out + [b.(proc := Some(meta))];
    }
    assert owned[..|owned|] == owned;
  }

  // ---- the sockets nobody owns ----

  function Orphans(table: seq<SockRow>, owned: seq<SockRow>, wanted: Binding -> bool): seq<SockRow> {
    Filter(Wanted(wanted), Unowned(table, owned))
  }

  predicate Doubtful(rows: seq<SockRow>) {
    exists i :: 0 <= i < |rows| && rows[i].state != TimeWait
  }

  function Confirmed(orphans: seq<SockRow>, recent: seq<SockRow>): seq<SockRow> {
    Unowned(orphans, Unowned(orphans, recent))
  }

  lemma DoubtfulSnoc(rows: seq<SockRow>, row: SockRow)
    ensures Doubtful(rows + [row]) <==> Doubtful(rows) || row.state != TimeWait
  {
    if Doubtful(rows) {
      var i :| 0 <= i < |rows| && rows[i].state != TimeWait;
      assert (rows + [row])[i].state != TimeWait;
    } else if row.state != TimeWait {
      assert (rows + [row])[|rows|].state != TimeWait;
    }
  }

  lemma OneMoreOrphan(unowned: seq<SockRow>, wanted: Binding -> bool, i: nat)
    requires i < |unowned|
    ensures var rows, longer := Filter(Wanted(wanted), unowned[..i]), Filter(Wanted(wanted), unowned[..i + 1]);
      if wanted(ToBinding(unowned[i]))
      then longer == rows + [unowned[i]] && (Doubtful(longer) <==> Doubtful(rows) || unowned[i].state != TimeWait)
      else longer == rows
  {
    OneMoreRow(unowned, wanted, i);
    DoubtfulSnoc(Filter(Wanted(wanted), unowned[..i]), unowned[i]);
  }

  method FindOrphans(table: seq<SockRow>, owned: seq<SockRow>, wanted: Binding -> bool)
    returns (orphans: seq<SockRow>, recheck: bool)
    ensures orphans == Orphans(table, owned, wanted)
    ensures recheck == Doubtful(orphans)
  {
    var unowned := UnownedRows(table, owned);
    orphans, recheck := [], false;
    for i := 0 to |unowned|
      invariant orphans == Filter(Wanted(wanted), unowned[..i])
      invariant recheck == Doubtful(orphans)
    {
      OneMoreOrphan(unowned, wanted, i);
      if wanted(ToBinding(unowned[i])) {
        orphans := orphans + [unowned[i]];
        recheck := recheck || unowned[i].state != TimeWait;
      }
    }
    assert unowned[..|unowned|] == unowned;
  }

  // The sockets listed without an owner.
  function Ownerless(a: Answers, wanted: Binding -> bool): seq<SockRow>
    requires a.table.Ok? && a.owned.Ok?
  {
    var orphans := Orphans(a.table.value, a.owned.value, wanted);
    if Doubtful(orphans) && a.recent.Ok? then Confirmed(orphans, a.recent.value) else orphans
  }

  function Listing(a: Answers, wanted: Binding -> bool): Result<seq<Binding>, int> {
    if a.table.Err? then Err(a.table.error)
    else if a.owned.Err? then Err(a.owned.error)
    else if Doubtful(Orphans(a.table.value, a.owned.value, wanted)) && a.recent.Err? then Err(a.recent.error)
    else Ok(WithDetails(a, Filter(Wanted(wanted), a.owned.value)) + ToBindings(Ownerless(a, wanted)))
  }

  method Collect(a: Answers, wanted: Binding -> bool) returns (r: Result<seq<Binding>, int>)
    ensures r == Listing(a, wanted)
  {
    if a.table.Err? {
      return Err(a.table.error);
    }
    if a.owned.Err? {
      return Err(a.owned.error);
    }
    var out := ListOwned(a, a.owned.value, wanted);
    var orphans, recheck := FindOrphans(a.table.value, a.owned.value, wanted);
    if recheck {
      if a.recent.Err? {
        return Err(a.recent.error);
      }
      var gone := UnownedRows(orphans, a.recent.value);
      orphans := UnownedRows(orphans, gone);
    }
    return Ok(out + ToBindings(orphans));
  }

  lemma {:induction false} FiltersCommute<T>(p: T -> bool, q: T -> bool, s: seq<T>)
    ensures Filter(p, Filter(q, s)) == Filter(q, Filter(p, s))
  {
    if s != [] {
      var init, x := s[..|s| - 1], s[|s| - 1];
      FiltersCommute(p, q, init);
      FilterSnoc(p, Filter(q, init), x);
      FilterSnoc(q, Filter(p, init), x);
    }
  }

  // Of every key the listing has the wanted rows that the table holds beyond the
  // owned ones; when any of them could still have an owner, only the last of
  // them, as many as the second table still shows.
  lemma OwnerlessPerKey(a: Answers, wanted: Binding -> bool, k: Key)
    requires a.table.Ok? && a.owned.Ok?
    requires Doubtful(Orphans(a.table.value, a.owned.value, wanted)) ==> a.recent.Ok?
    ensures var orphans := Orphans(a.table.value, a.owned.value, wanted);
      var beyond := Filter(Wanted(wanted), Drop(OfKey(a.table.value, k), Count(a.owned.value, k)));
      OfKey(Ownerless(a, wanted), k) == if Doubtful(orphans) then Last(beyond, Count(a.recent.value, k)) else beyond
  {
    var unowned := Unowned(a.table.value, a.owned.value);
    UnownedDropsOwned(a.table.value, a.owned.value, k);
    FiltersCommute(HasKey(k), Wanted(wanted), unowned);
    if a.recent.Ok? {
      RecheckIntersects(Orphans(a.table.value, a.owned.value, wanted), a.recent.value, k);
    }
  }

  // ---- the listing over the fields of the rows ----

  // b lists the row: its own endpoint, and the process, if any.
  predicate Lists(b: Binding, r: SockRow, proc: Option<ProcMeta>) {
    b.endpoint == r.local && b.protocol == r.protocol && b.state == r.state && b.inode == 0 && b.proc == proc
  }

  // The caller wants this row listed.
  function Asked(wanted: Binding -> bool): SockRow -> bool {
    (r: SockRow) => wanted(Binding(r.local, r.protocol, r.state, 0, None))
  }

  lemma AskedRow(wanted: Binding -> bool, r: SockRow)
    ensures Asked(wanted)(r) <==> Wanted(wanted)(r)
  {
    assert ToBinding(r) == Binding(r.local, r.protocol, r.state, 0, None);
  }

  lemma AskedIsWanted(wanted: Binding -> bool, rows: seq<SockRow>, at: seq<nat>)
    requires Places(Wanted(wanted), rows, at)
    ensures Places(Asked(wanted), rows, at)
  {
    forall i | 0 <= i < |rows|
      ensures Asked(wanted)(rows[i]) <==> Wanted(wanted)(rows[i])
    {
      AskedRow(wanted, rows[i]);
    }
  }

  predicate FirstOfPid(rows: seq<SockRow>, at: seq<nat>, pid: nat, f: nat)
    requires forall k :: 0 <= k < |at| ==> at[k] < |rows|
  {
    f < |at| && rows[at[f]].pid == pid && forall k :: 0 <= k < f ==> rows[at[k]].pid != pid
  }

  // b lists wanted row j, and its process as the first wanted row of the PID finds it.
  predicate ListedWithOwner(a: Answers, rows: seq<SockRow>, at: seq<nat>, j: nat, b: Binding)
    requires j < |at| && forall k :: 0 <= k < |at| ==> at[k] < |rows|
  {
    exists f: nat :: f <= j && FirstOfPid(rows, at, rows[at[j]].pid, f)
      && Lists(b, rows[at[j]], Some(a.details(f, rows[at[f]].pid, rows[at[f]].name)))
  }

  lemma OwnedIsListed(a: Answers, owned: seq<SockRow>, rows: seq<SockRow>, at: seq<nat>, j: nat)
    requires j < |at| == |rows| && forall k :: 0 <= k < |at| ==> at[k] < |owned| && rows[k] == owned[at[k]]
    ensures ListedWithOwner(a, owned, at, j, WithDetails(a, rows)[j])
  {
    var f := FirstOf(rows, rows[j].pid);
    assert FirstOfPid(owned, at, owned[at[j]].pid, f);
  }

  // These bindings list the rows at these places, in order, each with its process.
  predicate ListsOwned(a: Answers, owned: seq<SockRow>, at: seq<nat>, bs: seq<Binding>)
    requires forall k :: 0 <= k < |at| ==> at[k] < |owned|
  {
    |bs| == |at| && forall j :: 0 <= j < |at| ==> ListedWithOwner(a, owned, at, j, bs[j])
  }

  // These list the rows in order, without a process.
  predicate ListsOwnerless(rows: seq<SockRow>, bs: seq<Binding>) {
    |bs| == |rows| && forall j :: 0 <= j < |rows| ==> Lists(bs[j], rows[j], None)
  }

  lemma OwnedAreListed(a: Answers, owned: seq<SockRow>, wanted: Binding -> bool) returns (at: seq<nat>)
    ensures Places(Asked(wanted), owned, at)
    ensures ListsOwned(a, owned, at, WithDetails(a, Filter(Wanted(wanted), owned)))
  {
    at := FilterPlaces(Wanted(wanted), owned);
    AskedIsWanted(wanted, owned, at);
    var rows := Filter(Wanted(wanted), owned);
    forall j | 0 <= j < |at|
      ensures ListedWithOwner(a, owned, at, j, WithDetails(a, rows)[j])
    {
      OwnedIsListed(a, owned, rows, at, j);
    }
  }

  // A listing shows the wanted owned rows, each with its process, and after them the
  // rows without an owner.
  lemma ListingShows(a: Answers, wanted: Binding -> bool, bs: seq<Binding>)
    returns (at: seq<nat>, own: seq<Binding>, rest: seq<Binding>)
    requires Listing(a, wanted) == Ok(bs)
    ensures a.table.Ok? && a.owned.Ok? && bs == own + rest
    ensures Places(Asked(wanted), a.owned.value, at) && ListsOwned(a, a.owned.value, at, own)
    ensures ListsOwnerless(Ownerless(a, wanted), rest)
  {
    at := OwnedAreListed(a, a.owned.value, wanted);
    own := WithDetails(a, Filter(Wanted(wanted), a.owned.value));
    rest := ToBindings(Ownerless(a, wanted));
  }

  // A wanted row that nobody owns is not in TIME_WAIT.
  ghost predicate OwnerMayBeMissed(a: Answers, wanted: Binding -> bool)
    requires a.table.Ok? && a.owned.Ok?
  {
    exists r :: r in Unowned(a.table.value, a.owned.value) && Asked(wanted)(r) && r.state != TimeWait
  }

  lemma DoubtfulIffMissed(a: Answers, wanted: Binding -> bool)
    requires a.table.Ok? && a.owned.Ok?
    ensures Doubtful(Orphans(a.table.value, a.owned.value, wanted)) <==> OwnerMayBeMissed(a, wanted)
  {
    var unowned := Unowned(a.table.value, a.owned.value);
    var orphans := Orphans(a.table.value, a.owned.value, wanted);
    var at := FilterPlaces(Wanted(wanted), unowned);
    if Doubtful(orphans) {
      var i :| 0 <= i < |orphans| && orphans[i].state != TimeWait;
      AskedRow(wanted, unowned[at[i]]);
      assert unowned[at[i]] in unowned && Asked(wanted)(unowned[at[i]]);
    }
    if OwnerMayBeMissed(a, wanted) {
      var r :| r in unowned && Asked(wanted)(r) && r.state != TimeWait;
      var k :| 0 <= k < |unowned| && unowned[k] == r;
      AskedRow(wanted, r);
      assert Wanted(wanted)(unowned[k]);
      var j :| 0 <= j < |at| && at[j] == k;
      assert orphans[j] == r;
    }
  }

  // The first answer that failed fails the listing; the second table is only asked
  // for when an owner may have been missed.
  lemma ListingFailsIff(a: Answers, wanted: Binding -> bool, code: int)
    ensures Listing(a, wanted) == Err(code) <==>
      || a.table == Err(code)
      || (a.table.Ok? && a.owned == Err(code))
      || (a.table.Ok? && a.owned.Ok? && OwnerMayBeMissed(a, wanted) && a.recent == Err(code))
  {
    if a.table.Ok? && a.owned.Ok? {
      DoubtfulIffMissed(a, wanted);
    }
  }

  // Without a second table all wanted rows nobody owns are listed, in their order.
  lemma OwnerlessAreOrphans(a: Answers, wanted: Binding -> bool) returns (at: seq<nat>)
    requires a.table.Ok? && a.owned.Ok? && !OwnerMayBeMissed(a, wanted)
    ensures Places(Asked(wanted), Unowned(a.table.value, a.owned.value), at)
    ensures |Ownerless(a, wanted)| == |at|
    ensures forall j :: 0 <= j < |at| ==> Ownerless(a, wanted)[j] == Unowned(a.table.value, a.owned.value)[at[j]]
  {
    at := FilterPlaces(Wanted(wanted), Unowned(a.table.value, a.owned.value));
    AskedIsWanted(wanted, Unowned(a.table.value, a.owned.value), at);
    DoubtfulIffMissed(a, wanted);
  }
}
