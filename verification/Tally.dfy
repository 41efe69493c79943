/** Sums and bags taken over a sequence of thread states: how one thread's step
    changes the total is all the concurrent protocols need to know about them. */
module Tally {

  function Total<T>(xs: seq<T>, f: T -> nat): (n: nat)
  {
    if xs == [] then 0 else f(xs[0]) + Total(xs[1..], f)
  }

  function Collect<T>(xs: seq<T>, f: T -> multiset<int>): (bag: multiset<int>)
  {
    if xs == [] then multiset{} else f(xs[0]) + Collect(xs[1..], f)
  }

  lemma {:induction false} TotalUpdate<T>(xs: seq<T>, i: nat, x: T, f: T -> nat)
    requires i < |xs|
    ensures Total(xs[i := x], f) + f(xs[i]) == Total(xs, f) + f(x)
  {
    if i == 0 {
      assert xs[0 := x][1..] == xs[1..];
    } else {
      assert xs[i := x][1..] == xs[1..][i - 1 := x];
      TotalUpdate(xs[1..], i - 1, x, f);
    }
  }

  lemma {:induction false} CollectUpdate<T>(xs: seq<T>, i: nat, x: T, f: T -> multiset<int>)
    requires i < |xs|
    ensures f(xs[i]) <= Collect(xs, f)
    ensures Collect(xs[i := x], f) == Collect(xs, f) - f(xs[i]) + f(x)
  {
    if i == 0 {
      assert xs[0 := x][1..] == xs[1..];
    } else {
      assert xs[i := x][1..] == xs[1..][i - 1 := x];
      CollectUpdate(xs[1..], i - 1, x, f);
    }
  }

  lemma {:induction false} TotalAppend<T>(xs: seq<T>, x: T, f: T -> nat)
    ensures Total(xs + [x], f) == Total(xs, f) + f(x)
  {
    if xs == [] {
      assert [] + [x] == [x];
    } else {
      assert (xs + [x])[1..] == xs[1..] + [x];
      TotalAppend(xs[1..], x, f);
    }
  }

  lemma {:induction false} TotalIsZero<T>(xs: seq<T>, f: T -> nat)
    ensures Total(xs, f) == 0 <==> forall i :: 0 <= i < |xs| ==> f(xs[i]) == 0
  {
    if xs != [] {
      TotalIsZero(xs[1..], f);
      assert forall i :: 0 < i < |xs| ==> xs[i] == xs[1..][i - 1];
      assert forall i :: 0 <= i < |xs| - 1 ==> xs[1..][i] == xs[i + 1];
    }
  }

  /** When each thread contributes at most one, the total is at most the number
      of threads, and reaches it only if every one of them contributes. */
  lemma {:induction false} TotalAtMostLength<T>(xs: seq<T>, f: T -> nat)
    requires forall i :: 0 <= i < |xs| ==> f(xs[i]) <= 1
    ensures Total(xs, f) <= |xs|
    ensures Total(xs, f) == |xs| <==> forall i :: 0 <= i < |xs| ==> f(xs[i]) == 1
  {
    if xs != [] {
      TotalAtMostLength(xs[1..], f);
      assert forall i :: 0 < i < |xs| ==> xs[i] == xs[1..][i - 1];
      assert forall i :: 0 <= i < |xs| - 1 ==> xs[1..][i] == xs[i + 1];
    }
  }

  lemma {:induction false} CollectIsEmpty<T>(xs: seq<T>, f: T -> multiset<int>)
    requires forall i :: 0 <= i < |xs| ==> f(xs[i]) == multiset{}
    ensures Collect(xs, f) == multiset{}
  {
    if xs != [] {
      CollectIsEmpty(xs[1..], f);
    }
  }

  /** Only what each thread contributes matters. */
  lemma {:induction false} CollectPointwise<T>(xs: seq<T>, ys: seq<T>, f: T -> multiset<int>)
    requires |xs| == |ys| && forall i :: 0 <= i < |xs| ==> f(xs[i]) == f(ys[i])
    ensures Collect(xs, f) == Collect(ys, f)
  {
    if xs != [] {
      CollectPointwise(xs[1..], ys[1..], f);
    }
  }

  lemma {:induction false} TotalMonotone<T>(xs: seq<T>, f: T -> nat, g: T -> nat)
    requires forall i :: 0 <= i < |xs| ==> f(xs[i]) <= g(xs[i])
    ensures Total(xs, f) <= Total(xs, g)
  {
    if xs != [] {
      TotalMonotone(xs[1..], f, g);
    }
  }

  lemma {:induction false} TotalPointwise<T>(xs: seq<T>, ys: seq<T>, f: T -> nat)
    requires |xs| == |ys| && forall i :: 0 <= i < |xs| ==> f(xs[i]) == f(ys[i])
    ensures Total(xs, f) == Total(ys, f)
  {
    if xs != [] {
      TotalPointwise(xs[1..], ys[1..], f);
    }
  }

  /** Two different threads' holdings are counted separately. */
  lemma {:induction false} CollectIncludesBoth<T>(xs: seq<T>, i: nat, j: nat, f: T -> multiset<int>)
    requires i < j < |xs|
    ensures f(xs[i]) + f(xs[j]) <= Collect(xs, f)
  {
    if i == 0 {
      CollectUpdate(xs[1..], j - 1, xs[j], f);
    } else {
      CollectIncludesBoth(xs[1..], i - 1, j - 1, f);
    }
  }

  /** What has been collected comes from one of the threads. */
  lemma {:induction false} CollectComesFrom<T>(xs: seq<T>, x: int, f: T -> multiset<int>) returns (i: nat)
    requires x in Collect(xs, f)
    ensures i < |xs| && x in f(xs[i])
  {
    if x in f(xs[0]) {
      i := 0;
    } else {
      i := CollectComesFrom(xs[1..], x, f);
      i := i + 1;
    }
  }
}
