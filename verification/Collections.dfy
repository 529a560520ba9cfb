/** What the other modules share: optional values, and removal from lists and maps. */
module Collections {

  datatype Option<T> = None | Some(value: T)

  /** A list without the element at `i`. */
  function Without<T>(s: seq<T>, i: nat): seq<T>
    requires i < |s|
  {
    s[..i] + s[i + 1..]
  }

  lemma WithoutElements<T>(s: seq<T>, i: nat)
    requires i < |s| && forall j, k :: 0 <= j < k < |s| ==> s[j] != s[k]
    ensures forall e :: e in Without(s, i) <==> e in s && e != s[i]
    ensures forall j, k :: 0 <= j < k < |Without(s, i)| ==> Without(s, i)[j] != Without(s, i)[k]
  {
    var w := Without(s, i);
    forall k | 0 <= k < |s| && k != i ensures s[k] in w {
      assert s[k] == if k < i then w[k] else w[k - 1];
    }
  }

  lemma UpdateTwice<K, V>(m: map<K, V>, k: K, v: V, w: V)
    ensures m[k := v][k := w] == m[k := w]
  {
  }

  /** A list of different elements of a set is not longer than the set has elements. */
  lemma {:induction false} DistinctFit<T>(s: seq<T>, elements: set<T>)
    requires forall k :: 0 <= k < |s| ==> s[k] in elements
    requires forall k, l :: 0 <= k < l < |s| ==> s[k] != s[l]
    ensures |s| <= |elements|
  {
    if s != [] {
      DistinctFit(s[1..], elements - {s[0]});
    }
  }

  lemma {:induction false} KeysCount<T>(some: set<T>, all: set<T>)
    requires some <= all
    ensures |some| <= |all|
  {
    if x :| x in some {
      KeysCount(some - {x}, all - {x});
    }
  }
}
