// Repeating a partial step: when it ends, and why a walk inside a finite set
// that does not end must come back to where it has been.
module Orbit {
  import opened Model

  // The value after k steps from x, if the walk gets that far.
  ghost function At<T>(f: T -> Option<T>, x: T, k: nat): Option<T> {
    if k == 0 then Some(x)
    else
      var prev := At(f, x, k - 1);
      if prev.None? then None else f(prev.value)
  }

  ghost predicate Halts<T>(f: T -> Option<T>, x: T) {
    exists k: nat :: At(f, x, k) == None
  }

  // The walk is back at step j where it was at step i.
  ghost predicate Cycle<T>(f: T -> Option<T>, x: T, i: nat, j: nat) {
    i < j && At(f, x, i).Some? && At(f, x, i) == At(f, x, j)
  }

  lemma {:induction false} NoneForever<T>(f: T -> Option<T>, x: T, k: nat, n: nat)
    requires At(f, x, k) == None && k <= n
    ensures At(f, x, n) == None
  {
    if k < n {
      NoneForever(f, x, k, n - 1);
    }
  }

  lemma {:induction false} Shift<T>(f: T -> Option<T>, x: T, k: nat)
    ensures At(f, x, k + 1) == if f(x).None? then None else At(f, f(x).value, k)
  {
    if k > 0 {
      Shift(f, x, k - 1);
    } else {
      assert At(f, x, 1) == f(x);
    }
  }

  // A walk along known steps.
  lemma {:induction false} Follows<T>(f: T -> Option<T>, x: T, k: nat, path: seq<T>, i: nat)
    requires i < |path| && At(f, x, k) == Some(path[0])
    requires forall n :: 0 <= n < |path| - 1 ==> f(path[n]) == Some(path[n + 1])
    ensures At(f, x, k + i) == Some(path[i])
  {
    if i > 0 {
      Follows(f, x, k, path, i - 1);
      assert f(path[i - 1]) == Some(path[i - 1 + 1]);
    }
  }

  lemma {:induction false} Repeats<T>(f: T -> Option<T>, x: T, i: nat, j: nat, n: nat)
    requires At(f, x, i) == At(f, x, j)
    ensures At(f, x, i + n) == At(f, x, j + n)
  {
    if n > 0 {
      Repeats(f, x, i, j, n - 1);
    }
  }

  lemma {:induction false} CycleNeverEnds<T>(f: T -> Option<T>, x: T, i: nat, j: nat, n: nat)
    requires Cycle(f, x, i, j)
    ensures At(f, x, n).Some?
  {
    if n > j {
      CycleNeverEnds(f, x, i, j, n - (j - i));
      Repeats(f, x, i, j, n - j);
    } else if At(f, x, n) == None {
      NoneForever(f, x, n, j);
    }
  }

  lemma {:induction false} StaysIn<T>(f: T -> Option<T>, s: set<T>, x: T, k: nat)
    requires x in s && forall y :: y in s && f(y).Some? ==> f(y).value in s
    requires At(f, x, k).Some?
    ensures At(f, x, k).value in s
  {
    if k > 0 {
      StaysIn(f, s, x, k - 1);
    }
  }

  // The values met in the first k steps.
  ghost function Met<T>(f: T -> Option<T>, x: T, k: nat): set<T> {
    if k == 0 then {}
    else Met(f, x, k - 1) + (if At(f, x, k - 1).Some? then {At(f, x, k - 1).value} else {})
  }

  lemma {:induction false} MetEarlier<T>(f: T -> Option<T>, x: T, k: nat, y: T)
    requires y in Met(f, x, k)
    ensures exists i: nat :: i < k && At(f, x, i) == Some(y)
  {
    if y in Met(f, x, k - 1) {
      MetEarlier(f, x, k - 1, y);
    } else {
      assert At(f, x, k - 1) == Some(y);
    }
  }

  lemma BackAgain<T>(f: T -> Option<T>, x: T, k: nat)
    requires At(f, x, k).Some? && At(f, x, k).value in Met(f, x, k)
    ensures exists i: nat :: Cycle(f, x, i, k)
  {
    MetEarlier(f, x, k, At(f, x, k).value);
    var i: nat :| i < k && At(f, x, i) == At(f, x, k);
    assert Cycle(f, x, i, k);
  }

  lemma {:induction false} FreshStepsCount<T>(f: T -> Option<T>, s: set<T>, x: T, k: nat)
    requires x in s && forall y :: y in s && f(y).Some? ==> f(y).value in s
    requires k > 0 ==> At(f, x, k - 1).Some?
    requires forall i: nat, j: nat :: !Cycle(f, x, i, j)
    ensures Met(f, x, k) <= s && |Met(f, x, k)| == k
  {
    if k > 0 {
      FreshStepsCount(f, s, x, k - 1);
      StaysIn(f, s, x, k - 1);
      if At(f, x, k - 1).value in Met(f, x, k - 1) {
        BackAgain(f, x, k - 1);
      }
    }
  }

  lemma SubsetSize<T>(small: set<T>, large: set<T>)
    requires small <= large
    ensures |small| <= |large|
  {
    assert large == small + (large - small);
  }

  // Inside a finite set a walk ends exactly when it never repeats itself, and
  // then within as many steps as the set has elements.
  lemma HaltsIffNoCycle<T>(f: T -> Option<T>, s: set<T>, x: T)
    requires x in s && forall y :: y in s && f(y).Some? ==> f(y).value in s
    ensures Halts(f, x) <==> forall i: nat, j: nat :: !Cycle(f, x, i, j)
    ensures Halts(f, x) <==> At(f, x, |s|) == None
  {
    if Halts(f, x) {
      var k: nat :| At(f, x, k) == None;
      forall i: nat, j: nat
        ensures !Cycle(f, x, i, j)
      {
        if Cycle(f, x, i, j) {
          CycleNeverEnds(f, x, i, j, k);
        }
      }
    }
    if (forall i: nat, j: nat :: !Cycle(f, x, i, j)) && At(f, x, |s|).Some? {
      FreshStepsCount(f, s, x, |s| + 1);
      SubsetSize(Met(f, x, |s| + 1), s);
      assert false;
    }
  }
}
