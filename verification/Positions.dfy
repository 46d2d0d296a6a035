// Picking out of a sequence, by position and in order.
module Positions {

  // The positions below n where p holds.
  function Where(p: nat -> bool, n: nat): seq<nat> {
    if n == 0 then [] else if p(n - 1) then Where(p, n - 1) + [n - 1] else Where(p, n - 1)
  }

  // The elements at those positions.
  function Pick<T>(p: nat -> bool, xs: seq<T>): seq<T> {
    if xs == [] then []
    else
      var init, last := xs[..|xs| - 1], |xs| - 1;
      if p(last) then Pick(p, init) + [xs[last]] else Pick(p, init)
  }

  lemma {:induction false} WhereAscends(p: nat -> bool, n: nat)
    ensures forall j :: 0 <= j < |Where(p, n)| ==> Where(p, n)[j] < n && p(Where(p, n)[j])
    ensures forall i, j :: 0 <= i < j < |Where(p, n)| ==> Where(p, n)[i] < Where(p, n)[j]
  {
    if n > 0 {
      WhereAscends(p, n - 1);
    }
  }

  lemma {:induction false} WhereHolds(p: nat -> bool, n: nat, i: nat)
    requires i < n
    ensures i in Where(p, n) <==> p(i)
  {
    WhereAscends(p, n - 1);
    if i < n - 1 {
      WhereHolds(p, n - 1, i);
    }
  }

  lemma {:induction false} PickedAt<T>(p: nat -> bool, xs: seq<T>)
    ensures |Pick(p, xs)| == |Where(p, |xs|)|
    ensures forall j :: 0 <= j < |Pick(p, xs)| ==> Where(p, |xs|)[j] < |xs| && Pick(p, xs)[j] == xs[Where(p, |xs|)[j]]
  {
    if xs != [] {
      var init, last := xs[..|xs| - 1], |xs| - 1;
      PickedAt(p, init);
      forall j | 0 <= j < |Pick(p, xs)|
        ensures Where(p, |xs|)[j] < |xs| && Pick(p, xs)[j] == xs[Where(p, |xs|)[j]]
      {
        if j < |Pick(p, init)| {
          assert Pick(p, xs)[j] == Pick(p, init)[j];
        }
      }
    }
  }

  lemma PickSnoc<T>(p: nat -> bool, xs: seq<T>, x: T)
    ensures Pick(p, xs + [x]) == if p(|xs|) then Pick(p, xs) + [x] else Pick(p, xs)
  {
    assert (xs + [x])[..|xs|] == xs;
  }
}
