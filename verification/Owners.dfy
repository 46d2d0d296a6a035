// Attaching owners to sockets from racy snapshots of /proc and of the socket
// tables.
module Owners {
  import opened Model
  import opened Positions

  // One readable descriptor of a process that is a socket.
  datatype Sighting = Sighting(pid: nat, inode: nat)

  type Walk = Option<seq<Sighting>>

  // What the machine shows while owners are looked for: the n-th walk of /proc,
  // the inodes in a fresh read of the socket tables, and the details of a PID.
  // A walk or a read that fails is None.
  datatype Surroundings = Surroundings(walks: nat -> Walk, tables: Option<seq<nat>>, details: nat -> ProcMeta)

  datatype AttachError = WalkFailed | TableFailed

  const RETRIES: nat := 5

  // The PID a walk reports for an inode: the last process seen holding it.
  function LastHolder(walk: seq<Sighting>, inode: nat): Option<nat> {
    if walk == [] then None
    else
      var last := walk[|walk| - 1];
      if last.inode == inode then Some(last.pid) else LastHolder(walk[..|walk| - 1], inode)
  }

  // Sighting i is the last one of the inode.
  predicate LastAt(walk: seq<Sighting>, inode: nat, i: int) {
    0 <= i < |walk| && walk[i].inode == inode && forall j :: i < j < |walk| ==> walk[j].inode != inode
  }

  lemma {:induction false} LastHolderSeen(walk: seq<Sighting>, inode: nat)
    ensures LastHolder(walk, inode) == None <==> forall i :: 0 <= i < |walk| ==> walk[i].inode != inode
    ensures LastHolder(walk, inode).Some? ==>
      exists i :: LastAt(walk, inode, i) && walk[i].pid == LastHolder(walk, inode).value
  {
    if walk != [] {
      var init := walk[..|walk| - 1];
      LastHolderSeen(init, inode);
      if LastHolder(walk, inode).Some? && walk[|walk| - 1].inode != inode {
        var i :| LastAt(init, inode, i) && init[i].pid == LastHolder(init, inode).value;
        assert LastAt(walk, inode, i);
      } else if LastHolder(walk, inode).Some? {
        assert LastAt(walk, inode, |walk| - 1);
      } else {
        assert forall j :: 0 <= j < |init| ==> walk[j] == init[j];
      }
    }
  }

  // The owner found for an inode by the first n walks: by the earliest of them
  // that saw it at all.
  function OwnerBy(walks: nat -> Walk, inode: nat, n: nat): Option<nat> {
    if n == 0 then None
    else
      var earlier := OwnerBy(walks, inode, n - 1);
      if earlier.Some? then earlier
      else if walks(n - 1).Some? then LastHolder(walks(n - 1).value, inode)
      else None
  }

  // An owner once found is never overwritten.
  lemma {:induction false} OwnerStays(walks: nat -> Walk, inode: nat, m: nat, n: nat)
    requires m <= n && OwnerBy(walks, inode, m).Some?
    ensures OwnerBy(walks, inode, n) == OwnerBy(walks, inode, m)
  {
    if m < n {
      OwnerStays(walks, inode, m, n - 1);
    }
  }

  // None of the first n walks saw the inode.
  ghost predicate Unseen(walks: nat -> Walk, inode: nat, n: nat) {
    forall k: nat, i: nat :: k < n && walks(k).Some? && i < |walks(k).value| ==> walks(k).value[i].inode != inode
  }

  // No owner is found exactly when no walk saw the inode.
  lemma {:induction false} UnownedMeansUnseen(walks: nat -> Walk, inode: nat, n: nat)
    ensures OwnerBy(walks, inode, n) == None <==> Unseen(walks, inode, n)
  {
    if n > 0 {
      UnownedMeansUnseen(walks, inode, n - 1);
      if walks(n - 1).Some? {
        LastHolderSeen(walks(n - 1).value, inode);
      }
    }
  }

  function Wanted(bs: seq<Binding>): set<nat> {
    set i | 0 <= i < |bs| && bs[i].inode != 0 :: bs[i].inode
  }

  // Some wanted inode is unmatched after n walks.
  ghost predicate Unmatched(walks: nat -> Walk, want: set<nat>, n: nat) {
    exists inode :: inode in want && OwnerBy(walks, inode, n) == None
  }

  // Walk n is made: the first always, a retry only while something is unmatched.
  ghost predicate Walked(walks: nat -> Walk, want: set<nat>, n: nat) {
    n <= RETRIES && (n > 0 ==> Unmatched(walks, want, n))
  }

  ghost predicate WalksFail(walks: nat -> Walk, want: set<nat>) {
    exists n: nat :: Walked(walks, want, n) && walks(n) == None
  }

  // The socket closed while its owner was looked for: no walk saw it, and it is
  // gone from the fresh tables.
  predicate Vanished(s: Surroundings, b: Binding) {
    b.inode != 0 && OwnerBy(s.walks, b.inode, RETRIES + 1) == None && (s.tables.Some? ==> b.inode !in s.tables.value)
  }

  // The binding with the owner that was found for it, if any was.
  function WithOwner(s: Surroundings, b: Binding): Binding {
    var owner := OwnerBy(s.walks, b.inode, RETRIES + 1);
    if b.inode != 0 && owner.Some? then b.(proc := Some(s.details(owner.value))) else b
  }

  function Attached(s: Surroundings, bs: seq<Binding>): seq<Binding> {
    if bs == [] then []
    else
      var init, b := bs[..|bs| - 1], bs[|bs| - 1];
      if Vanished(s, b) then Attached(s, init) else Attached(s, init) + [WithOwner(s, b)]
  }

  function Staying(s: Surroundings, bs: seq<Binding>): nat -> bool {
    (i: nat) => i < |bs| && !Vanished(s, bs[i])
  }

  function Described(s: Surroundings, bs: seq<Binding>): (owned: seq<Binding>)
    ensures |owned| == |bs| && forall i :: 0 <= i < |bs| ==> owned[i] == WithOwner(s, bs[i])
  {
    seq(|bs|, i requires 0 <= i < |bs| => WithOwner(s, bs[i]))
  }

  lemma AttachedSnoc(s: Surroundings, init: seq<Binding>, b: Binding)
    ensures Attached(s, init + [b]) ==
      if Vanished(s, b) then Attached(s, init) else Attached(s, init) + [WithOwner(s, b)]
  {
    assert (init + [b])[..|init|] == init;
  }

  lemma {:induction false} AttachedPicks(s: Surroundings, bs: seq<Binding>, n: nat)
    requires n <= |bs|
    ensures Attached(s, bs[..n]) == Pick(Staying(s, bs), Described(s, bs)[..n])
  {
    if n > 0 {
      AttachedPicks(s, bs, n - 1);
      AttachedSnoc(s, bs[..n - 1], bs[n - 1]);
      PickSnoc(Staying(s, bs), Described(s, bs)[..n - 1], Described(s, bs)[n - 1]);
      assert bs[..n] == bs[..n - 1] + [bs[n - 1]];
      assert Described(s, bs)[..n] == Described(s, bs)[..n - 1] + [Described(s, bs)[n - 1]];
    }
  }

  // What attachOwners returns is a subsequence of its input, in order. A binding
  // is left out exactly when its socket vanished.
  lemma AttachedIsSubsequence(s: Surroundings, bs: seq<Binding>)
    ensures var at, out := Where(Staying(s, bs), |bs|), Attached(s, bs);
      && |at| == |out| && (forall j :: 0 <= j < |at| ==> at[j] < |bs| && out[j] == WithOwner(s, bs[at[j]]))
      && (forall i, j :: 0 <= i < j < |at| ==> at[i] < at[j])
      && (forall i :: 0 <= i < |bs| ==> (i in at <==> !Vanished(s, bs[i])))
  {
    var p := Staying(s, bs);
    AttachedPicks(s, bs, |bs|);
    assert bs[..|bs|] == bs && Described(s, bs)[..|bs|] == Described(s, bs);
    PickedAt(p, Described(s, bs));
    WhereAscends(p, |bs|);
    forall i | 0 <= i < |bs|
      ensures i in Where(p, |bs|) <==> !Vanished(s, bs[i])
    {
      WhereHolds(p, |bs|, i);
    }
  }

  // A binding without an inode is returned untouched.
  lemma UnidentifiedStay(s: Surroundings, bs: seq<Binding>, i: nat)
    requires i < |bs| && bs[i].inode == 0
    ensures bs[i] in Attached(s, bs)
  {
    AttachedIsSubsequence(s, bs);
    var at := Where(Staying(s, bs), |bs|);
    assert i in at;
    var j :| 0 <= j < |at| && at[j] == i;
    assert Attached(s, bs)[j] == WithOwner(s, bs[i]);
  }

  // Which binding vanishes, in terms of what the machine showed.
  lemma VanishedExactly(s: Surroundings, b: Binding)
    requires s.tables.Some?
    ensures Vanished(s, b) <==> b.inode != 0 && b.inode !in s.tables.value && Unseen(s.walks, b.inode, 6)
  {
    UnownedMeansUnseen(s.walks, b.inode, RETRIES + 1);
  }

  // ---- six walks ----

  // Walk n is the first that saw the inode, and last at i.
  ghost predicate FirstSeen(walks: nat -> Walk, inode: nat, n: nat, i: nat) {
    Unseen(walks, inode, n) && walks(n).Some? && LastAt(walks(n).value, inode, i)
  }

  lemma FirstSeenOwns(walks: nat -> Walk, inode: nat, n: nat, i: nat)
    requires FirstSeen(walks, inode, n, i)
    ensures OwnerBy(walks, inode, n + 1) == Some(walks(n).value[i].pid)
  {
    UnownedMeansUnseen(walks, inode, n);
    LastHolderSeen(walks(n).value, inode);
  }

  // The owner is whom the first walk that saw the inode showed last. The sixth walk
  // still counts, and no further one does.
  lemma OwnerIsFirstSeen(s: Surroundings, b: Binding)
    ensures b.inode == 0 || Unseen(s.walks, b.inode, 6) ==> WithOwner(s, b) == b
    ensures b.inode != 0 ==> forall n: nat, i: nat :: n < 6 && FirstSeen(s.walks, b.inode, n, i) ==>
      WithOwner(s, b) == b.(proc := Some(s.details(s.walks(n).value[i].pid)))
  {
    UnownedMeansUnseen(s.walks, b.inode, 6);
    forall n: nat, i: nat | n < 6 && FirstSeen(s.walks, b.inode, n, i)
      ensures OwnerBy(s.walks, b.inode, 6) == Some(s.walks(n).value[i].pid)
    {
      FirstSeenOwns(s.walks, b.inode, n, i);
      OwnerStays(s.walks, b.inode, n + 1, 6);
    }
  }

  // The first walk is always made, and each of the next five while some inode that is
  // looked for was seen by none before.
  lemma WalkedIff(walks: nat -> Walk, want: set<nat>, n: nat)
    ensures Walked(walks, want, n) <==> n == 0 || (n <= 5 && exists inode :: inode in want && Unseen(walks, inode, n))
  {
    forall inode | inode in want
      ensures OwnerBy(walks, inode, n) == None <==> Unseen(walks, inode, n)
    {
      UnownedMeansUnseen(walks, inode, n);
    }
    if n > 0 && n <= 5 && exists inode :: inode in want && Unseen(walks, inode, n) {
      var inode :| inode in want && Unseen(walks, inode, n);
      assert OwnerBy(walks, inode, n) == None;
    }
  }

  // ---- the loops ----

  // One walk over /proc, for the inodes still wanted.
  method ScanOwners(want: set<nat>, walk: seq<Sighting>) returns (owner: map<nat, nat>)
    ensures forall inode :: inode in owner <==> inode in want && LastHolder(walk, inode).Some?
    ensures forall inode :: inode in owner ==> LastHolder(walk, inode) == Some(owner[inode])
  {
    owner := map[];
    for i := 0 to |walk|
      invariant forall inode :: inode in owner <==> inode in want && LastHolder(walk[..i], inode).Some?
      invariant forall inode :: inode in owner ==> LastHolder(walk[..i], inode) == Some(owner[inode])
    {
      assert walk[..i + 1][..i] == walk[..i];
      if walk[i].inode in want {
        owner := owner[walk[i].inode := walk[i].pid];
      }
    }
    assert walk[..|walk|] == walk;
  }

  method LiveInodes(rows: seq<nat>) returns (live: set<nat>)
    ensures forall inode :: inode in live <==> inode != 0 && inode in rows
  {
    live := {};
    for i := 0 to |rows|
      invariant forall inode :: inode in live <==> inode != 0 && inode in rows[..i]
    {
      assert rows[..i + 1] == rows[..i] + [rows[i]];
      if rows[i] != 0 {
        live := live + {rows[i]};
      }
    }
    assert rows[..|rows|] == rows;
  }

  // The owner map after n walks.
  ghost predicate OwnersAfter(walks: nat -> Walk, want: set<nat>, owner: map<nat, nat>, n: nat) {
    && (forall inode :: inode in owner <==> inode in want && OwnerBy(walks, inode, n).Some?)
    && (forall inode :: inode in owner ==> OwnerBy(walks, inode, n) == Some(owner[inode]))
  }

  lemma FirstWalk(walks: nat -> Walk, want: set<nat>, owner: map<nat, nat>)
    requires walks(0).Some?
    requires forall inode :: inode in owner <==> inode in want && LastHolder(walks(0).value, inode).Some?
    requires forall inode :: inode in owner ==> LastHolder(walks(0).value, inode) == Some(owner[inode])
    ensures OwnersAfter(walks, want, owner, 1)
  {
    forall inode
      ensures OwnerBy(walks, inode, 1) == LastHolder(walks(0).value, inode)
    {
    }
  }

  lemma OneMoreWalk(walks: nat -> Walk, want: set<nat>, owner: map<nat, nat>, n: nat, found: map<nat, nat>)
    requires OwnersAfter(walks, want, owner, n) && walks(n).Some?
    requires forall inode :: inode in found <==> inode in want - owner.Keys && LastHolder(walks(n).value, inode).Some?
    requires forall inode :: inode in found ==> LastHolder(walks(n).value, inode) == Some(found[inode])
    ensures OwnersAfter(walks, want, owner + found, n + 1)
  {
  }

  lemma SomeUnmatched(walks: nat -> Walk, want: set<nat>, owner: map<nat, nat>, n: nat)
    requires OwnersAfter(walks, want, owner, n)
    ensures owner.Keys != want <==> Unmatched(walks, want, n)
  {
    if owner.Keys != want {
      assert want == owner.Keys + (want - owner.Keys);
      var missing :| missing in want - owner.Keys;
    }
  }

  // Once everything is matched, further walks would change nothing.
  lemma LaterWalksAddNothing(walks: nat -> Walk, want: set<nat>, owner: map<nat, nat>, n: nat)
    requires n <= RETRIES + 1 && OwnersAfter(walks, want, owner, n) && (n == RETRIES + 1 || owner.Keys == want)
    ensures OwnersAfter(walks, want, owner, RETRIES + 1)
    ensures forall k: nat :: n <= k <= RETRIES && k > 0 ==> !Walked(walks, want, k)
  {
    forall inode | inode in owner
      ensures forall k: nat :: n <= k <= RETRIES + 1 ==> OwnerBy(walks, inode, k) == OwnerBy(walks, inode, n)
    {
      forall k: nat | n <= k <= RETRIES + 1
        ensures OwnerBy(walks, inode, k) == OwnerBy(walks, inode, n)
      {
        OwnerStays(walks, inode, n, k);
      }
    }
  }

  // Up to six walks: the first for everything, each retry for what is left.
  method FindOwners(walks: nat -> Walk, want: set<nat>) returns (r: Result<map<nat, nat>, AttachError>)
    ensures r.Err? <==> WalksFail(walks, want)
    ensures r.Err? ==> r.error == WalkFailed
    ensures r.Ok? ==> OwnersAfter(walks, want, r.value, RETRIES + 1)
  {
    if walks(0) == None {
      assert Walked(walks, want, 0);
      return Err(WalkFailed);
    }
    var owner := ScanOwners(want, walks(0).value);
    FirstWalk(walks, want, owner);
    var attempt := 0;
    while attempt < RETRIES && owner.Keys != want
      invariant attempt <= RETRIES
      invariant OwnersAfter(walks, want, owner, attempt + 1)
      invariant forall n: nat :: n <= attempt && Walked(walks, want, n) ==> walks(n).Some?
      decreases RETRIES - attempt
    {
      var remaining := want - owner.Keys;
      SomeUnmatched(walks, want, owner, attempt + 1);
      if walks(attempt + 1) == None {
        assert Walked(walks, want, attempt + 1);
        return Err(WalkFailed);
      }
      var found := ScanOwners(remaining, walks(attempt + 1).value);
      OneMoreWalk(walks, want, owner, attempt + 1, found);
      owner := owner + found;
      attempt := attempt + 1;
    }
    LaterWalksAddNothing(walks, want, owner, attempt + 1);
    return Ok(owner);
  }

  // The answer when there is an inode to look for.
  ghost function Answer(s: Surroundings, bs: seq<Binding>): Result<seq<Binding>, AttachError> {
    if WalksFail(s.walks, Wanted(bs)) then Err(WalkFailed)
    else if Unmatched(s.walks, Wanted(bs), RETRIES + 1) && s.tables == None then Err(TableFailed)
    else Ok(Attached(s, bs))
  }

  // Nothing is returned exactly when a walk that is made fails, or when the fresh
  // tables are needed, because six walks left an inode unseen, and cannot be read.
  lemma FailsIff(s: Surroundings, bs: seq<Binding>)
    ensures Answer(s, bs) == Err(WalkFailed) <==> exists n: nat :: Walked(s.walks, Wanted(bs), n) && s.walks(n) == None
    ensures Answer(s, bs) == Err(TableFailed) <==>
      && (forall n: nat :: Walked(s.walks, Wanted(bs), n) ==> s.walks(n).Some?)
      && s.tables == None && exists b :: b in bs && b.inode != 0 && Unseen(s.walks, b.inode, 6)
  {
    forall b | b in bs && b.inode != 0
      ensures b.inode in Wanted(bs) && (OwnerBy(s.walks, b.inode, 6) == None <==> Unseen(s.walks, b.inode, 6))
    {
      UnownedMeansUnseen(s.walks, b.inode, 6);
    }
    if Unmatched(s.walks, Wanted(bs), 6) {
      var inode :| inode in Wanted(bs) && OwnerBy(s.walks, inode, 6) == None;
      var i :| 0 <= i < |bs| && bs[i].inode == inode;
      assert bs[i] in bs;
    }
    if exists b :: b in bs && b.inode != 0 && Unseen(s.walks, b.inode, 6) {
      var b :| b in bs && b.inode != 0 && Unseen(s.walks, b.inode, 6);
      assert OwnerBy(s.walks, b.inode, 6) == None;
    }
  }

  // The wanted inodes without an owner that are gone from a fresh read.
  method FindVanished(s: Surroundings, want: set<nat>, owner: map<nat, nat>) returns (vanished: set<nat>)
    requires s.tables.Some? && 0 !in want
    ensures vanished == set inode | inode in want && inode !in owner && inode !in s.tables.value
  {
    var live := LiveInodes(s.tables.value);
    vanished := set inode | inode in want && inode !in owner && inode !in live;
  }

  // The binding with what the owner map says of it.
  function Labelled(details: nat -> ProcMeta, owner: map<nat, nat>, b: Binding): Binding {
    if b.inode in owner then b.(proc := Some(details(owner[b.inode]))) else b
  }

  function Listed(details: nat -> ProcMeta, owner: map<nat, nat>, vanished: set<nat>, bs: seq<Binding>): seq<Binding> {
    if bs == [] then []
    else
      var init, b := bs[..|bs| - 1], bs[|bs| - 1];
      if b.inode in vanished then Listed(details, owner, vanished, init)
      else Listed(details, owner, vanished, init) + [Labelled(details, owner, b)]
  }

  // The owner map and the vanished inodes are right about these bindings.
  ghost predicate Sorted(s: Surroundings, owner: map<nat, nat>, vanished: set<nat>, bs: seq<Binding>) {
    forall b :: b in bs ==>
      (b.inode in vanished <==> Vanished(s, b)) && Labelled(s.details, owner, b) == WithOwner(s, b)
  }

  lemma {:induction false} ListedIsAttached(s: Surroundings, owner: map<nat, nat>, vanished: set<nat>, bs: seq<Binding>)
    requires Sorted(s, owner, vanished, bs)
    ensures Listed(s.details, owner, vanished, bs) == Attached(s, bs)
  {
    if bs != [] {
      assert bs[|bs| - 1] in bs;
      ListedIsAttached(s, owner, vanished, bs[..|bs| - 1]);
    }
  }

  lemma MapsAreRight(s: Surroundings, bs: seq<Binding>, owner: map<nat, nat>, vanished: set<nat>)
    requires OwnersAfter(s.walks, Wanted(bs), owner, RETRIES + 1)
    requires if owner.Keys == Wanted(bs) then vanished == {}
      else s.tables.Some? && vanished == set inode | inode in Wanted(bs) && inode !in owner && inode !in s.tables.value
    ensures Sorted(s, owner, vanished, bs)
  {
    forall b | b in bs
      ensures b.inode in vanished <==> Vanished(s, b)
      ensures Labelled(s.details, owner, b) == WithOwner(s, b)
    {
      assert b.inode != 0 ==> b.inode in Wanted(bs);
    }
  }

  // One round of the loop below: the owner is written into the binding in place,
  // and the details of a process are read once.
  method Label(bs: array<Binding>, i: nat, details: nat -> ProcMeta, owner: map<nat, nat>, cache: map<nat, ProcMeta>)
    returns (cache': map<nat, ProcMeta>)
    requires i < bs.Length && forall p :: p in cache ==> cache[p] == details(p)
    modifies bs
    ensures bs[..] == old(bs[..])[i := Labelled(details, owner, old(bs[i]))]
    ensures forall p :: p in cache' ==> cache'[p] == details(p)
  {
    cache' := cache;
    if bs[i].inode in owner {
      var pid := owner[bs[i].inode];
      if pid !in cache {
        cache' := cache[pid := details(pid)];
      }
      bs[i] := bs[i].(proc := Some(cache'[pid]));
    }
  }

  // Writes the owners into the bindings that have not vanished, and lists those.
  method Collect(bs: array<Binding>, details: nat -> ProcMeta, owner: map<nat, nat>, vanished: set<nat>)
    returns (out: seq<Binding>)
    requires vanished !! owner.Keys
    modifies bs
    ensures out == Listed(details, owner, vanished, old(bs[..]))
    ensures forall i :: 0 <= i < bs.Length ==> bs[i] == Labelled(details, owner, old(bs[i]))
  {
    var cache: map<nat, ProcMeta> := map[];
    out := [];
    ghost var was := bs[..];
    for i := 0 to bs.Length
      invariant forall j :: 0 <= j < i ==> bs[j] == Labelled(details, owner, was[j])
      invariant forall j :: i <= j < bs.Length ==> bs[j] == was[j]
      invariant out == Listed(details, owner, vanished, was[..i])
      invariant forall pid :: pid in cache ==> cache[pid] == details(pid)
    {
      assert was[..i + 1][..i] == was[..i];
      if bs[i].inode in vanished {
        continue;
      }
      cache := Label(bs, i, details, owner, cache);
      out := out + [bs[i]];
    }
    assert was[..bs.Length] == was;
  }

  lemma NothingWanted(s: Surroundings, bs: seq<Binding>)
    requires Wanted(bs) == {}
    ensures forall b :: b in bs ==> WithOwner(s, b) == b
  {
    forall b | b in bs
      ensures WithOwner(s, b) == b
    {
      assert b.inode != 0 ==> b.inode in Wanted(bs);
    }
  }

  method AttachOwners(bs: array<Binding>, s: Surroundings) returns (r: Result<seq<Binding>, AttachError>)
    modifies bs
    ensures Wanted(old(bs[..])) == {} ==> r == Ok(old(bs[..]))
    ensures Wanted(old(bs[..])) != {} ==> r == Answer(s, old(bs[..]))
    ensures forall i :: 0 <= i < bs.Length ==> bs[i] == if r.Ok? then WithOwner(s, old(bs[i])) else old(bs[i])
  {
    ghost var was := bs[..];
    var want := Wanted(bs[..]);
    if want == {} {
      NothingWanted(s, was);
      return Ok(bs[..]);
    }
    var owners := FindOwners(s.walks, want);
    if owners.Err? {
      return Err(owners.error);
    }
    var owner := owners.value;
    SomeUnmatched(s.walks, want, owner, RETRIES + 1);
    var vanished: set<nat> := {};
    if owner.Keys != want {
      if s.tables == None {
        return Err(TableFailed);
      }
      vanished := FindVanished(s, want, owner);
    }
    MapsAreRight(s, was, owner, vanished);
    ListedIsAttached(s, owner, vanished, was);
    var out := Collect(bs, s.details, owner, vanished);
    return Ok(out);
  }
}
