/** Sums of a per-element weight over a sequence.  The concurrent protocols of this
    project identify a thread with an index into a sequence of program points and state
    their counting invariants with these sums. */
module Sums {

  function Sum<T>(s: seq<T>, weight: T -> int): int {
    if s == [] then 0 else weight(s[0]) + Sum(s[1..], weight)
  }

  /** Changing one element changes the sum by the difference of the two weights. */
  lemma {:induction false} SumUpdate<T>(s: seq<T>, i: nat, v: T, weight: T -> int)
    requires i < |s|
    ensures Sum(s[i := v], weight) == Sum(s, weight) - weight(s[i]) + weight(v)
  {
    if i == 0 {
      assert s[i := v][1..] == s[1..];
    } else {
      assert s[i := v][1..] == s[1..][i - 1 := v];
      SumUpdate(s[1..], i - 1, v, weight);
    }
  }

  /** A sum of non-negative weights is at least each of its terms. */
  lemma {:induction false} SumTerm<T>(s: seq<T>, i: nat, weight: T -> int)
    requires i < |s|
    requires forall j :: 0 <= j < |s| ==> weight(s[j]) >= 0
    ensures Sum(s, weight) >= weight(s[i])
  {
    SumNonNegative(s[1..], weight);
    if i > 0 {
      SumTerm(s[1..], i - 1, weight);
    }
  }

  lemma {:induction false} SumNonNegative<T>(s: seq<T>, weight: T -> int)
    requires forall j :: 0 <= j < |s| ==> weight(s[j]) >= 0
    ensures Sum(s, weight) >= 0
  {
    if s != [] {
      SumNonNegative(s[1..], weight);
    }
  }

  /** A positive sum has a positive term. */
  lemma {:induction false} SumWitness<T>(s: seq<T>, weight: T -> int) returns (i: nat)
    requires Sum(s, weight) > 0
    ensures i < |s| && weight(s[i]) > 0
  {
    if weight(s[0]) > 0 {
      i := 0;
    } else {
      var k := SumWitness(s[1..], weight);
      i := k + 1;
    }
  }

  /** A constant bound on every weight bounds the sum by that many times the length. */
  lemma {:induction false} SumBound<T>(s: seq<T>, weight: T -> int, bound: int)
    requires forall j :: 0 <= j < |s| ==> weight(s[j]) <= bound
    ensures Sum(s, weight) <= bound * |s|
  {
    if s != [] {
      SumBound(s[1..], weight, bound);
    }
  }

  lemma {:induction false} SumZero<T>(s: seq<T>, weight: T -> int)
    requires forall j :: 0 <= j < |s| ==> weight(s[j]) == 0
    ensures Sum(s, weight) == 0
  {
    if s != [] {
      SumZero(s[1..], weight);
    }
  }

  lemma {:induction false} SumAppend<T>(s: seq<T>, v: T, weight: T -> int)
    ensures Sum(s + [v], weight) == Sum(s, weight) + weight(v)
  {
    if s == [] {
      assert s + [v] == [v];
    } else {
      assert (s + [v])[1..] == s[1..] + [v];
      SumAppend(s[1..], v, weight);
    }
  }

  lemma {:induction false} SumAdd<T>(s: seq<T>, u: T -> int, v: T -> int, total: T -> int)
    requires forall j :: 0 <= j < |s| ==> total(s[j]) == u(s[j]) + v(s[j])
    ensures Sum(s, total) == Sum(s, u) + Sum(s, v)
  {
    if s != [] {
      SumAdd(s[1..], u, v, total);
    }
  }

  /** Equal weights, element by element, have equal sums. */
  lemma {:induction false} SumSame<T>(s: seq<T>, u: seq<T>, weight: T -> int, weight': T -> int)
    requires |s| == |u| && forall i :: 0 <= i < |s| ==> weight(s[i]) == weight'(u[i])
    ensures Sum(s, weight) == Sum(u, weight')
  {
    if s != [] {
      SumSame(s[1..], u[1..], weight, weight');
    }
  }

  /** A sum of zeros and ones is the number of ones. */
  lemma {:induction false} SumCounts<T>(s: seq<T>, weight: T -> int, ones: set<int>)
    requires forall j :: 0 <= j < |s| ==> weight(s[j]) == 0 || weight(s[j]) == 1
    requires forall j :: j in ones <==> 0 <= j < |s| && weight(s[j]) == 1
    ensures Sum(s, weight) == |ones|
  {
    if s == [] {
      assert forall j :: j !in ones;
      assert ones == {};
    } else {
      var last := |s| - 1;
      SumCounts(s[..last], weight, ones - {last});
      assert s == s[..last] + [s[last]];
      SumAppend(s[..last], s[last], weight);
    }
  }
}
