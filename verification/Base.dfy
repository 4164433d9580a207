/** Shared vocabulary. */
module Base {
  datatype Option<+T> = None | Some(value: T)

  function Default<T>(o: Option<T>, fallback: T): T {
    match o case Some(x) => x case None => fallback
  }

  lemma DefaultIs<T>(o: Option<T>, fallback: T)
    ensures Default(o, fallback) == if o.Some? then o.value else fallback
  {}

  ghost predicate NoRepeats<T>(s: seq<T>) {
    forall i, j :: 0 <= i < j < |s| ==> s[i] != s[j]
  }

  function Power2(n: nat): nat {
    if n == 0 then 1 else 2 * Power2(n - 1)
  }

  lemma {:induction false} Power2Positive(n: nat)
    ensures Power2(n) > 0
  {
    if n > 0 { Power2Positive(n - 1); }
  }
}

/** The union of a family of sets. */
module Families {

  ghost function Union<K, T>(m: map<K, set<T>>): set<T> {
    set k, x | k in m && x in m[k] :: x
  }

  lemma Split<K, T>(m: map<K, set<T>>, k: K)
    requires k in m
    ensures Union(m) == Union(m - {k}) + m[k]
  {
    forall x | x in Union(m) ensures x in Union(m - {k}) + m[k] {
      var j :| j in m && x in m[j];
      if j != k { assert j in m - {k} && x in (m - {k})[j]; }
    }
    forall x | x in Union(m - {k}) ensures x in Union(m) {
      var j :| j in m - {k} && x in (m - {k})[j];
      assert x in m[j];
    }
  }

  lemma Member<K, T>(m: map<K, set<T>>, x: T) returns (k: K)
    requires x in Union(m)
    ensures k in m && x in m[k]
  {
    k :| k in m && x in m[k];
  }

  lemma {:induction false} SubsetSize<T>(a: set<T>, b: set<T>)
    requires a <= b
    ensures |a| <= |b|
  {
    if a != {} {
      var x :| x in a;
      SubsetSize(a - {x}, b - {x});
    }
  }
}
