/**
Adding up, over all threads, what each one's program counter contributes. The protocols
of the library are stated with such sums, since any number of threads may wait on one slot.
*/
module Counting {
  ghost function Total<P(!new)>(ps: seq<P>, f: P -> int): int {
    if ps == [] then 0 else f(ps[0]) + Total(ps[1..], f)
  }

  /** One thread moves on; the others contribute what they did. */
  lemma {:induction false} TotalUpdate<P(!new)>(ps: seq<P>, i: nat, p: P, f: P -> int)
    requires i < |ps|
    ensures Total(ps[i := p], f) == Total(ps, f) - f(ps[i]) + f(p)
  {
    if i == 0 {
      assert ps[i := p][1..] == ps[1..];
    } else {
      TotalUpdate(ps[1..], i - 1, p, f);
      assert ps[i := p][1..] == ps[1..][i - 1 := p];
    }
  }

  /** Of contributions that are never negative, no two exceed the total. */
  lemma {:induction false} TotalCovers<P(!new)>(ps: seq<P>, f: P -> int)
    requires forall p :: f(p) >= 0
    ensures Total(ps, f) >= 0
    ensures forall i :: 0 <= i < |ps| ==> f(ps[i]) <= Total(ps, f)
    ensures forall i, j :: 0 <= i < j < |ps| ==> f(ps[i]) + f(ps[j]) <= Total(ps, f)
  {
    if ps != [] {
      TotalCovers(ps[1..], f);
      forall i, j | 0 <= i < j < |ps| ensures f(ps[i]) + f(ps[j]) <= Total(ps, f) {
        assert ps[j] == ps[1..][j - 1];
        if i > 0 {
          assert ps[i] == ps[1..][i - 1];
        }
      }
      forall i | 0 <= i < |ps| ensures f(ps[i]) <= Total(ps, f) {
        if i > 0 {
          assert ps[i] == ps[1..][i - 1];
        }
      }
    }
  }

  /** A positive total has a positive contribution. */
  lemma {:induction false} TotalWitness<P(!new)>(ps: seq<P>, f: P -> int) returns (i: nat)
    requires Total(ps, f) > 0
    ensures i < |ps| && f(ps[i]) > 0
  {
    if f(ps[0]) > 0 {
      i := 0;
    } else {
      var j := TotalWitness(ps[1..], f);
      i := j + 1;
    }
  }

  /** A total of nothing. */
  lemma {:induction false} TotalNone<P(!new)>(ps: seq<P>, f: P -> int)
    requires forall i :: 0 <= i < |ps| ==> f(ps[i]) == 0
    ensures Total(ps, f) == 0
  {
    if ps != [] {
      TotalNone(ps[1..], f);
    }
  }

  /** One thread more. */
  lemma {:induction false} TotalAppend<P(!new)>(ps: seq<P>, p: P, f: P -> int)
    ensures Total(ps + [p], f) == Total(ps, f) + f(p)
  {
    if ps == [] {
      assert ps + [p] == [p] && [p][1..] == [];
    } else {
      TotalAppend(ps[1..], p, f);
      assert (ps + [p])[1..] == ps[1..] + [p];
    }
  }

  /** Contributions of at most one each make no more than the number of threads. */
  lemma {:induction false} TotalAtMost<P(!new)>(ps: seq<P>, f: P -> int)
    requires forall p :: f(p) <= 1
    ensures Total(ps, f) <= |ps|
  {
    if ps != [] {
      TotalAtMost(ps[1..], f);
    }
  }

  lemma {:induction false} TotalOrder<P(!new)>(ps: seq<P>, f: P -> int, g: P -> int)
    requires forall p :: f(p) <= g(p)
    ensures Total(ps, f) <= Total(ps, g)
  {
    if ps != [] {
      TotalOrder(ps[1..], f, g);
    }
  }

  /** Different threads that contribute at least one each add up. */
  lemma {:induction false} TotalOfSome<P(!new)>(ps: seq<P>, f: P -> int, none: P, some: seq<nat>)
    requires f(none) == 0 && forall p :: f(p) >= 0
    requires forall k :: 0 <= k < |some| ==> some[k] < |ps| && f(ps[some[k]]) >= 1
    requires forall j, k :: 0 <= j < k < |some| ==> some[j] != some[k]
    ensures Total(ps, f) >= |some|
    decreases |some|
  {
    if some == [] {
      TotalCovers(ps, f);
    } else {
      var i := some[|some| - 1];
      TotalUpdate(ps, i, none, f);
      TotalOfSome(ps[i := none], f, none, some[..|some| - 1]);
    }
  }

  /** A thread that moves twice is where the second move takes it. */
  lemma Twice<T>(a: seq<T>, i: nat, x: T, y: T)
    requires i < |a|
    ensures a[i := x][i := y] == a[i := y]
  {
  }
}
