/** Finite sums over sequences, sets and maps, and their laws. Sums over maps stand for loops
    over Go maps, whose order is unspecified: the sum does not depend on it. */
module Sums {
  import opened PrimeField

  lemma TakeSnoc<T>(s: seq<T>, i: nat)
    requires i < |s|
    ensures s[..i + 1] == s[..i] + [s[i]]
    ensures s[..i + 1][..i] == s[..i]
  {
  }

  function Sum(ks: seq<nat>, f: nat -> int): int {
    if ks == [] then 0 else Sum(ks[..|ks| - 1], f) + f(ks[|ks| - 1])
  }

  lemma SumSnoc(ks: seq<nat>, k: nat, f: nat -> int)
    ensures Sum(ks + [k], f) == Sum(ks, f) + f(k)
  {
  }

  lemma {:induction false} SumCong(q: Modulus, ks: seq<nat>, f: nat -> int, g: nat -> int)
    requires forall i :: 0 <= i < |ks| ==> Cong(q, f(ks[i]), g(ks[i]))
    ensures Cong(q, Sum(ks, f), Sum(ks, g))
  {
    if ks != [] {
      var js := ks[..|ks| - 1];
      assert forall i :: 0 <= i < |js| ==> js[i] == ks[i];
      SumCong(q, js, f, g);
      CongAdd(q, Sum(js, f), Sum(js, g), f(ks[|ks| - 1]), g(ks[|ks| - 1]));
    }
  }

  lemma {:induction false} SumEqual(ks: seq<nat>, f: nat -> int, g: nat -> int)
    requires forall i :: 0 <= i < |ks| ==> f(ks[i]) == g(ks[i])
    ensures Sum(ks, f) == Sum(ks, g)
  {
    if ks != [] {
      var js := ks[..|ks| - 1];
      assert forall i :: 0 <= i < |js| ==> js[i] == ks[i];
      SumEqual(js, f, g);
    }
  }

  /** Sums are linear. */
  lemma {:induction false} SumLinear(ks: seq<nat>, f: nat -> int, g: nat -> int, h: nat -> int, m: int)
    requires forall i :: 0 <= i < |ks| ==> h(ks[i]) == f(ks[i]) + m * g(ks[i])
    ensures Sum(ks, h) == Sum(ks, f) + m * Sum(ks, g)
  {
    if ks != [] {
      var js, k := ks[..|ks| - 1], ks[|ks| - 1];
      assert forall i :: 0 <= i < |js| ==> js[i] == ks[i];
      SumLinear(js, f, g, h, m);
      assert m * (Sum(js, g) + g(k)) == m * Sum(js, g) + m * g(k);
    }
  }

  /** The sum of all values of a map, in some order. */
  ghost function MapSum(m: map<nat, int>): int {
    if m == map[] then 0
    else
      var k :| k in m;
      m[k] + MapSum(m - {k})
  }

  /** Any key may be taken out first. */
  lemma {:induction false} MapSumTake(m: map<nat, int>, k: nat)
    requires k in m
    ensures MapSum(m) == m[k] + MapSum(m - {k})
    decreases |m|
  {
    var j :| j in m && MapSum(m) == m[j] + MapSum(m - {j});
    if j != k {
      assert |m - {j}| < |m| && |m - {k}| < |m| by {
        assert (m - {j}).Keys == m.Keys - {j};
        assert (m - {k}).Keys == m.Keys - {k};
      }
      MapSumTake(m - {j}, k);
      MapSumTake(m - {k}, j);
      assert (m - {j}) - {k} == (m - {k}) - {j};
    }
  }

  /** The sum of a map is the sum over any enumeration of its keys. */
  lemma {:induction false} MapSumEnumerated(m: map<nat, int>, ks: seq<nat>, f: nat -> int)
    requires forall i, j :: 0 <= i < j < |ks| ==> ks[i] != ks[j]
    requires forall k :: k in ks <==> k in m
    requires forall k :: k in m ==> f(k) == m[k]
    ensures MapSum(m) == Sum(ks, f)
    decreases |ks|
  {
    if ks == [] {
      assert m == map[];
    } else {
      var js, k := ks[..|ks| - 1], ks[|ks| - 1];
      assert k in m;
      assert ks == js + [k];
      MapSumTake(m, k);
      MapSumEnumerated(m - {k}, js, f);
    }
  }
}
