// Why an owner that attachOwners reports held the endpoint: what the lookup of a
// Machine promises, derived from what the tables and the walks showed.
module Resolving {
  import opened Model
  import opened Kernel
  import opened Machine
  import opened Owners

  // The machine as the resolver reads it: the kernel, the endpoint of each socket
  // inode, and who has which inode open.
  datatype Snapshot = Snapshot(k: KernelState, at: map<nat, AddrPort>, open: set<(Instance, nat)>)

  // Whoever has an inode open holds its endpoint.
  ghost predicate Coherent(s: Snapshot) {
    WellFormed(s.k) && forall o :: o in s.open ==> o.1 in s.at && (o.0, s.at[o.1]) in s.k.sockets
  }

  // One lookup: the states it began and ended in, the snapshot that row i of the
  // tables was read from, and the one that sighting j of walk n was.
  datatype Reading = Reading(from: KernelState, to: KernelState, row: nat -> Snapshot, sight: (nat, nat) -> Snapshot)

  ghost predicate During(r: Reading, s: Snapshot) {
    Coherent(s) && Evolves(r.from, s.k) && Evolves(s.k, r.to)
  }

  predicate RowHolds(s: Snapshot, b: Binding) {
    b.inode in s.at && s.at[b.inode] == b.endpoint
  }

  // Every row shows where its inode was.
  ghost predicate RowsHold(r: Reading, bs: seq<Binding>) {
    forall i: nat :: i < |bs| && bs[i].inode != 0 ==> RowHolds(r.row(i), bs[i]) && During(r, r.row(i))
  }

  ghost predicate SightedAt(walks: nat -> Walk, want: set<nat>, n: nat, j: nat) {
    Walked(walks, want, n) && walks(n).Some? && j < |walks(n).value|
  }

  ghost predicate HasOpen(s: Snapshot, seen: Sighting) {
    exists o :: o in s.open && o.0.pid == seen.pid && o.1 == seen.inode
  }

  // Every sighting of a walk that was made shows who had the inode open.
  ghost predicate SightingsHold(r: Reading, walks: nat -> Walk, want: set<nat>) {
    forall n: nat, j: nat :: SightedAt(walks, want, n, j) ==>
      HasOpen(r.sight(n, j), walks(n).value[j]) && During(r, r.sight(n, j))
  }

  // While the lookup runs, an inode is not used for another socket.
  ghost predicate InodesStay(r: Reading) {
    forall i: nat, n: nat, j: nat, inode :: inode in r.row(i).at && inode in r.sight(n, j).at ==>
      r.row(i).at[inode] == r.sight(n, j).at[inode]
  }

  // A found owner was seen by a walk that was made.
  lemma {:induction false} OwnerIsSighted(walks: nat -> Walk, want: set<nat>, inode: nat, m: nat)
    requires inode in want && m <= RETRIES + 1 && OwnerBy(walks, inode, m).Some?
    ensures exists n: nat, j: nat ::
      SightedAt(walks, want, n, j) && walks(n).value[j] == Sighting(OwnerBy(walks, inode, m).value, inode)
  {
    if OwnerBy(walks, inode, m - 1).Some? {
      OwnerIsSighted(walks, want, inode, m - 1);
    } else {
      assert Unmatched(walks, want, m - 1);
      var walk := walks(m - 1).value;
      LastHolderSeen(walk, inode);
      var j :| LastAt(walk, inode, j) && walk[j].pid == LastHolder(walk, inode).value;
      assert SightedAt(walks, want, m - 1, j) && walks(m - 1).value[j] == Sighting(walk[j].pid, inode);
    }
  }

  // What is known of a lookup and the candidates it found.
  ghost predicate Grounded(r: Reading, s: Surroundings, bs: seq<Binding>) {
    && RowsHold(r, bs) && SightingsHold(r, s.walks, Wanted(bs)) && InodesStay(r)
    && (forall pid :: s.details(pid).pid == pid)
    && forall i :: 0 <= i < |bs| ==> bs[i].proc == None
  }

  lemma OwnerIsReported(s: Surroundings, bs: seq<Binding>, i: nat) returns (n: nat, j: nat)
    requires i < |bs| && bs[i].proc == None && WithOwner(s, bs[i]).proc.Some? && forall pid :: s.details(pid).pid == pid
    ensures bs[i].inode != 0 && SightedAt(s.walks, Wanted(bs), n, j)
    ensures s.walks(n).value[j] == Sighting(WithOwner(s, bs[i]).proc.value.pid, bs[i].inode)
  {
    var inode := bs[i].inode;
    assert inode in Wanted(bs);
    OwnerIsSighted(s.walks, Wanted(bs), inode, RETRIES + 1);
    n, j :| SightedAt(s.walks, Wanted(bs), n, j)
      && s.walks(n).value[j] == Sighting(OwnerBy(s.walks, inode, RETRIES + 1).value, inode);
  }

  // The owner found for a binding held its endpoint in a state of the lookup.
  lemma OwnerHeld(r: Reading, s: Surroundings, bs: seq<Binding>, i: nat) returns (f: Fact)
    requires Grounded(r, s, bs) && i < |bs| && WithOwner(s, bs[i]).proc.Some?
    ensures SeenBetween(r.from, [f], r.to) && ShownAt(WithOwner(s, bs[i]), [f], 0)
  {
    var n, j := OwnerIsReported(s, bs, i);
    var shot, seen := r.sight(n, j), s.walks(n).value[j];
    assert HasOpen(shot, seen) && RowHolds(r.row(i), bs[i]);
    var o :| o in shot.open && o.0.pid == seen.pid && o.1 == seen.inode;
    assert r.row(i).at[seen.inode] == shot.at[seen.inode];
    f := Seen(o.0, bs[i].endpoint, shot.k);
  }

  // Leaving the last binding out shows no less.
  lemma ShownLess(out: seq<Binding>, b: Binding, seen: seq<Fact>)
    requires Shown(out + [b], seen)
    ensures Shown(out, seen)
  {
    forall c | c in out && c.proc.Some?
      ensures exists n :: ShownAt(c, seen, n)
    {
      assert c in out + [b];
    }
  }

  lemma {:induction false} AttachedAreShown(r: Reading, s: Surroundings, bs: seq<Binding>, n: nat)
    returns (seen: seq<Fact>)
    requires Grounded(r, s, bs) && n <= |bs|
    ensures SeenBetween(r.from, seen, r.to) && Shown(Attached(s, bs[..n]), seen)
  {
    if n == 0 {
      seen := [];
    } else {
      seen := AttachedAreShown(r, s, bs, n - 1);
      var out, b := Attached(s, bs[..n - 1]), bs[n - 1];
      assert bs[..n] == bs[..n - 1] + [b];
      AttachedSnoc(s, bs[..n - 1], b);
      if WithOwner(s, b).proc.Some? {
        var f := OwnerHeld(r, s, bs, n - 1);
        ShownNow(out, seen, WithOwner(s, b), f);
        seen := seen + [f];
        ShownLess(out, WithOwner(s, b), seen);
      }
    }
  }

  // What attachOwners reports meets what the lookup of a Machine promises.
  lemma AttachedOwnersHeld(r: Reading, s: Surroundings, bs: seq<Binding>) returns (seen: seq<Fact>)
    requires WellFormed(r.from) && Grounded(r, s, bs)
    ensures SeenBetween(r.from, seen, r.to) && Shown(Attached(s, bs), seen) && Superseded(r.from.used, seen, r.to)
  {
    seen := AttachedAreShown(r, s, bs, |bs|);
    assert bs[..|bs|] == bs;
    SeenSupersede(r.from, seen, r.to);
  }
}
