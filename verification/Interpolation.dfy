/** Lagrange interpolation at zero over the integers modulo a prime.

    The main theorem is `InterpolatesAtZero`: the coefficients that `party.ID.Lagrange` computes for
    a set of distinct nonzero points recover f(0) from the values of any polynomial f that has
    no more coefficients than there are points. */
module Interpolation {
  import opened PrimeField

  /** The value at x of the polynomial with coefficients c, constant term first. */
  function Eval(c: seq<int>, x: int): int {
    if c == [] then 0 else c[0] + x * Eval(c[1..], x)
  }

  /** The quotient of the polynomial c by (X - a). */
  function Quotient(c: seq<int>, a: int): seq<int> {
    if |c| <= 1 then [] else [Eval(c[1..], a)] + Quotient(c[1..], a)
  }

  lemma {:induction false} QuotientDegree(c: seq<int>, a: int)
    ensures |Quotient(c, a)| == if |c| <= 1 then 0 else |c| - 1
  {
    if |c| > 1 {
      QuotientDegree(c[1..], a);
    }
  }

  /** f(x) - f(a) is a multiple of x - a. */
  lemma {:induction false} QuotientCorrect(c: seq<int>, a: int, x: int)
    ensures Eval(c, x) - Eval(c, a) == (x - a) * Eval(Quotient(c, a), x)
  {
    if |c| <= 1 {
      if |c| == 1 {
        assert c[1..] == [];
      }
    } else {
      var d := c[1..];
      QuotientCorrect(d, a, x);
      var g := Eval(Quotient(d, a), x);
      assert Quotient(c, a)[1..] == Quotient(d, a);
      assert Eval(Quotient(c, a), x) == Eval(d, a) + x * g;
      QuotientStep(c[0], x, a, Eval(d, x), Eval(d, a), g);
    }
  }

  lemma QuotientStep(c0: int, x: int, a: int, dx: int, da: int, g: int)
    requires dx - da == (x - a) * g
    ensures (c0 + x * dx) - (c0 + a * da) == (x - a) * (da + x * g)
  {
    assert x * (dx - da) == x * ((x - a) * g);
    assert x * ((x - a) * g) == (x - a) * (x * g);
  }

  predicate Distinct<T(==)>(s: seq<T>) {
    forall i, j :: 0 <= i < j < |s| ==> s[i] != s[j]
  }

  /** All points are below the modulus. */
  predicate Below(q: Modulus, xs: seq<nat>) {
    forall k :: 0 <= k < |xs| ==> xs[k] < q
  }

  /** Distinct nonzero points below the modulus. */
  predicate Points(q: Modulus, xs: seq<nat>) {
    Distinct(xs) && Below(q, xs) && forall k :: 0 <= k < |xs| ==> xs[k] != 0
  }

  predicate Avoids(xs: seq<nat>, a: nat) {
    forall k :: 0 <= k < |xs| ==> xs[k] != a
  }

  /** Product of the points other than i. */
  function Numerator(q: Modulus, i: nat, xs: seq<nat>): nat {
    if xs == [] then 1 % q
    else
      var p, x := Numerator(q, i, xs[..|xs| - 1]), xs[|xs| - 1];
      if x == i then p else p * x % q
  }

  /** Product of the differences x - i over the points other than i. */
  function Denominator(q: Modulus, i: nat, xs: seq<nat>): nat {
    if xs == [] then 1 % q
    else
      var p, x := Denominator(q, i, xs[..|xs| - 1]), xs[|xs| - 1];
      if x == i then p else p * ((x - i) % q) % q
  }

  /** The Lagrange coefficient of i at zero. */
  function Coefficient(q: Modulus, i: nat, xs: seq<nat>): nat {
    Numerator(q, i, xs) * Inverse(q, Denominator(q, i, xs)) % q
  }

  lemma NumeratorSnoc(q: Modulus, i: nat, xs: seq<nat>, b: nat)
    ensures i == b ==> Numerator(q, i, xs + [b]) == Numerator(q, i, xs)
    ensures i != b ==> Cong(q, Numerator(q, i, xs + [b]), Numerator(q, i, xs) * b)
  {
    assert (xs + [b])[..|xs|] == xs;
    CongMod(q, Numerator(q, i, xs) * b);
  }

  lemma DenominatorSnoc(q: Modulus, i: nat, xs: seq<nat>, b: nat)
    ensures i == b ==> Denominator(q, i, xs + [b]) == Denominator(q, i, xs)
    ensures i != b ==> Cong(q, Denominator(q, i, xs + [b]), Denominator(q, i, xs) * (b - i))
  {
    assert (xs + [b])[..|xs|] == xs;
    if i != b {
      var p := Denominator(q, i, xs);
      CongMod(q, p * ((b - i) % q));
      CongMod(q, b - i);
      CongScale(q, p, (b - i) % q, b - i);
    }
  }

  /** The denominator is never zero, whatever the points: no two of them differ by a multiple
      of q, and there are no zero divisors. */
  lemma {:induction false} DenominatorNonzero(q: Modulus, i: nat, xs: seq<nat>)
    requires IsPrime(q) && i < q && Below(q, xs)
    ensures !Cong(q, Denominator(q, i, xs), 0)
  {
    if xs == [] {
      SmallNonzero(q, 1);
      CongMod(q, 1);
    } else {
      var ys, b := xs[..|xs| - 1], xs[|xs| - 1];
      assert xs == ys + [b];
      DenominatorNonzero(q, i, ys);
      DenominatorSnoc(q, i, ys, b);
      if i != b {
        SmallNonzero(q, b - i);
        ProductNonzero(q, Denominator(q, i, ys), b - i);
      }
    }
  }

  /** Coefficient times denominator is the numerator. */
  lemma CoefficientCorrect(q: Modulus, i: nat, xs: seq<nat>)
    requires IsPrime(q) && i < q && Below(q, xs)
    ensures Cong(q, Coefficient(q, i, xs) * Denominator(q, i, xs), Numerator(q, i, xs))
  {
    DenominatorNonzero(q, i, xs);
    Ratio(q, Numerator(q, i, xs), Denominator(q, i, xs));
  }

  lemma Ratio(q: Modulus, n: int, d: int)
    requires IsPrime(q) && !Cong(q, d, 0)
    ensures Cong(q, (n * Inverse(q, d) % q) * d, n)
  {
    var v := Inverse(q, d);
    InverseCorrect(q, d);
    CongMod(q, n * v);
    CongFactor(q, n * v % q, n * v, d);
    assert (n * v) * d == n * (d * v);
    CongScale(q, n, d * v, 1);
  }

  /** Adding the point b scales the coefficient of every other point i by b / (b - i). */
  lemma CoefficientSnoc(q: Modulus, i: nat, xs: seq<nat>, b: nat)
    requires IsPrime(q) && i < q && b < q && i != b && Below(q, xs)
    ensures Cong(q, Coefficient(q, i, xs + [b]) * (b - i), Coefficient(q, i, xs) * b)
  {
    var n, d, l := Numerator(q, i, xs), Denominator(q, i, xs), Coefficient(q, i, xs);
    var ys := xs + [b];
    var n', d', l' := Numerator(q, i, ys), Denominator(q, i, ys), Coefficient(q, i, ys);
    NumeratorSnoc(q, i, xs, b);
    DenominatorSnoc(q, i, xs, b);
    CoefficientCorrect(q, i, xs);
    CoefficientCorrect(q, i, ys);
    DenominatorNonzero(q, i, xs);
    RatioStep(q, n, d, l, n', d', l', b, b - i);
  }

  /** If l = n/d and l' = (n*b)/(d*e) then l' * e = l * b. */
  lemma RatioStep(q: Modulus, n: int, d: int, l: int, n': int, d': int, l': int, b: int, e: int)
    requires IsPrime(q) && !Cong(q, d, 0)
    requires Cong(q, l * d, n) && Cong(q, l' * d', n') && Cong(q, n', n * b) && Cong(q, d', d * e)
    ensures Cong(q, l' * e, l * b)
  {
    CongScale(q, l', d', d * e);
    CongFactor(q, l * d, n, b);
    assert d * (l' * e) == l' * (d * e);
    assert d * (l * b) == (l * d) * b;
    Cancel(q, d, l' * e, l * b);
  }

  /** The last two points may be swapped. */
  lemma CoefficientSwap(q: Modulus, i: nat, xs: seq<nat>, a: nat, b: nat)
    requires IsPrime(q) && i < q && a < q && b < q && Below(q, xs)
    ensures Coefficient(q, i, xs + [a, b]) == Coefficient(q, i, xs + [b, a])
  {
    assert xs + [a, b] == (xs + [a]) + [b] && xs + [b, a] == (xs + [b]) + [a];
    NumeratorSwap(q, i, xs, a, b);
    DenominatorSwap(q, i, xs, a, b);
  }

  lemma NumeratorRange(q: Modulus, i: nat, xs: seq<nat>)
    ensures Numerator(q, i, xs) < q && Denominator(q, i, xs) < q
  {
  }

  lemma CongSmall(q: Modulus, a: nat, b: nat)
    requires a < q && b < q && Cong(q, a, b)
    ensures a == b
  {
  }

  lemma ProductSwap(q: Modulus, p: int, a: int, b: int, pa: int, pb: int, pab: int, pba: int)
    requires Cong(q, pa, p * a) && Cong(q, pb, p * b) && Cong(q, pab, pa * b) && Cong(q, pba, pb * a)
    ensures Cong(q, pab, pba)
  {
    CongFactor(q, pa, p * a, b);
    CongFactor(q, pb, p * b, a);
    assert (p * a) * b == (p * b) * a;
  }

  lemma NumeratorSwap(q: Modulus, i: nat, xs: seq<nat>, a: nat, b: nat)
    ensures Numerator(q, i, (xs + [a]) + [b]) == Numerator(q, i, (xs + [b]) + [a])
  {
    NumeratorSnoc(q, i, xs, a);
    NumeratorSnoc(q, i, xs, b);
    NumeratorSnoc(q, i, xs + [a], b);
    NumeratorSnoc(q, i, xs + [b], a);
    NumeratorRange(q, i, (xs + [a]) + [b]);
    NumeratorRange(q, i, (xs + [b]) + [a]);
    if i != a && i != b {
      ProductSwap(q, Numerator(q, i, xs), a, b, Numerator(q, i, xs + [a]), Numerator(q, i, xs + [b]),
                  Numerator(q, i, (xs + [a]) + [b]), Numerator(q, i, (xs + [b]) + [a]));
    }
    CongSmall(q, Numerator(q, i, (xs + [a]) + [b]), Numerator(q, i, (xs + [b]) + [a]));
  }

  lemma DenominatorSwap(q: Modulus, i: nat, xs: seq<nat>, a: nat, b: nat)
    ensures Denominator(q, i, (xs + [a]) + [b]) == Denominator(q, i, (xs + [b]) + [a])
  {
    DenominatorSnoc(q, i, xs, a);
    DenominatorSnoc(q, i, xs, b);
    DenominatorSnoc(q, i, xs + [a], b);
    DenominatorSnoc(q, i, xs + [b], a);
    NumeratorRange(q, i, (xs + [a]) + [b]);
    NumeratorRange(q, i, (xs + [b]) + [a]);
    if i != a && i != b {
      ProductSwap(q, Denominator(q, i, xs), a - i, b - i, Denominator(q, i, xs + [a]), Denominator(q, i, xs + [b]),
                  Denominator(q, i, (xs + [a]) + [b]), Denominator(q, i, (xs + [b]) + [a]));
    }
    CongSmall(q, Denominator(q, i, (xs + [a]) + [b]), Denominator(q, i, (xs + [b]) + [a]));
  }

  /** Sum over ks of the weight of k times f(k). */
  function WeightedSum(ks: seq<nat>, l: nat -> int, c: seq<int>): int {
    if ks == [] then 0
    else WeightedSum(ks[..|ks| - 1], l, c) + l(ks[|ks| - 1]) * Eval(c, ks[|ks| - 1])
  }

  /** The Lagrange coefficients at zero for the points xs, as a function of the point. */
  function Weights(q: Modulus, xs: seq<nat>): nat -> int {
    (k: nat) => Coefficient(q, k, xs)
  }

  lemma WeightedSumSnoc(ks: seq<nat>, k: nat, l: nat -> int, c: seq<int>)
    ensures WeightedSum(ks + [k], l, c) == WeightedSum(ks, l, c) + l(k) * Eval(c, k)
  {
  }

  const One: seq<int> := [1]

  lemma EvalOne(x: int)
    ensures Eval(One, x) == 1
  {
  }

  /** m(k) = l(k) * (b - k) / b: what dropping the point b does to the weight of k. */
  ghost predicate Drops(q: Modulus, ks: seq<nat>, l: nat -> int, m: nat -> int, b: nat) {
    forall i :: 0 <= i < |ks| ==> Cong(q, l(ks[i]) * (b - ks[i]), m(ks[i]) * b)
  }

  lemma WeightsDropLast(q: Modulus, ks: seq<nat>, us: seq<nat>, b: nat)
    requires IsPrime(q) && b < q && Below(q, us) && Below(q, ks) && Avoids(ks, b)
    ensures Drops(q, ks, Weights(q, us + [b]), Weights(q, us), b)
  {
    forall i | 0 <= i < |ks|
      ensures Cong(q, Weights(q, us + [b])(ks[i]) * (b - ks[i]), Weights(q, us)(ks[i]) * b)
    {
      CoefficientSnoc(q, ks[i], us, b);
    }
  }

  lemma WeightsDropPrevious(q: Modulus, ks: seq<nat>, us: seq<nat>, a: nat, b: nat)
    requires IsPrime(q) && a < q && b < q && Below(q, us) && Below(q, ks) && Avoids(ks, a)
    ensures Drops(q, ks, Weights(q, us + [a, b]), Weights(q, us + [b]), a)
  {
    assert us + [b, a] == (us + [b]) + [a];
    forall i | 0 <= i < |ks|
      ensures Cong(q, Weights(q, us + [a, b])(ks[i]) * (a - ks[i]), Weights(q, us + [b])(ks[i]) * a)
    {
      CoefficientSwap(q, ks[i], us, a, b);
      CoefficientSnoc(q, ks[i], us + [b], a);
    }
  }

  /** Neville's recurrence, summed over ks. */
  lemma {:induction false} NevilleSum(q: Modulus, ks: seq<nat>, l: nat -> int, la: nat -> int, lb: nat -> int, a: nat, b: nat)
    requires Drops(q, ks, l, la, b) && Drops(q, ks, l, lb, a)
    ensures Cong(q, (b - a) * WeightedSum(ks, l, One), b * WeightedSum(ks, la, One) - a * WeightedSum(ks, lb, One))
  {
    if ks != [] {
      var js, k := ks[..|ks| - 1], ks[|ks| - 1];
      NevilleSum(q, js, l, la, lb, a, b);
      EvalOne(k);
      NevilleStep(q, a, b, k, l(k), la(k), lb(k),
                  WeightedSum(js, l, One), WeightedSum(js, la, One), WeightedSum(js, lb, One));
    }
  }

  lemma NevilleStep(q: Modulus, a: int, b: int, k: int, l: int, la: int, lb: int, s: int, sa: int, sb: int)
    requires Cong(q, l * (b - k), la * b) && Cong(q, l * (a - k), lb * a)
    requires Cong(q, (b - a) * s, b * sa - a * sb)
    ensures Cong(q, (b - a) * (s + l), b * (sa + la) - a * (sb + lb))
  {
    CongAdd(q, l * (b - k), la * b, l * (a - k), lb * a);
    assert l * (b - k) - l * (a - k) == (b - a) * l;
    CongAdd(q, (b - a) * s, b * sa - a * sb, (b - a) * l, la * b - lb * a);
    assert (b - a) * s + (b - a) * l == (b - a) * (s + l);
    assert (b * sa - a * sb) + (la * b - lb * a) == b * (sa + la) - a * (sb + lb);
  }

  /** The Lagrange coefficients of any points sum to one. */
  lemma {:induction false} CoefficientsSumToOne(q: Modulus, xs: seq<nat>)
    requires IsPrime(q) && Points(q, xs) && xs != []
    ensures Cong(q, WeightedSum(xs, Weights(q, xs), One), 1)
    decreases |xs|
  {
    if |xs| == 1 {
      SinglePoint(q, xs[0]);
      assert xs == [xs[0]];
    } else {
      var us, a, b := xs[..|xs| - 2], xs[|xs| - 2], xs[|xs| - 1];
      assert xs == us + [a, b];
      PointsSplit(q, us, a, b);
      CoefficientsSumToOne(q, us + [a]);
      CoefficientsSumToOne(q, us + [b]);
      SumToOneStep(q, us, a, b);
    }
  }

  lemma PointsSplit(q: Modulus, us: seq<nat>, a: nat, b: nat)
    requires Points(q, us + [a, b])
    ensures Points(q, us + [a]) && Points(q, us + [b]) && a != b
    ensures Below(q, us) && Avoids(us + [a], b) && Avoids(us + [b], a)
  {
    var xs := us + [a, b];
    var n := |us|;
    assert xs[n] == a && xs[n + 1] == b;
    assert forall i :: 0 <= i < n ==> us[i] == xs[i];
    assert forall i :: 0 <= i < n ==> (us + [a])[i] == xs[i];
    assert forall i :: 0 <= i < n ==> (us + [b])[i] == xs[i];
  }

  lemma SumToOneStep(q: Modulus, us: seq<nat>, a: nat, b: nat)
    requires IsPrime(q) && a < q && b < q && a != b
    requires Below(q, us) && Avoids(us + [a], b) && Avoids(us + [b], a)
    requires Cong(q, WeightedSum(us + [a], Weights(q, us + [a]), One), 1)
    requires Cong(q, WeightedSum(us + [b], Weights(q, us + [b]), One), 1)
    ensures Cong(q, WeightedSum(us + [a, b], Weights(q, us + [a, b]), One), 1)
  {
    assert us + [a, b] == (us + [a]) + [b];
    WeightsDropLast(q, us + [a], us + [a], b);
    WeightsDropPrevious(q, us + [b], us, a, b);
    var l, la, lb := Weights(q, us + [a, b]), Weights(q, us + [a]), Weights(q, us + [b]);
    NevilleAtZero(q, us, l, la, lb, a, b);
    SmallNonzero(q, b - a);
    NevilleOfOnes(q, a, b, WeightedSum(us + [a, b], l, One),
                  WeightedSum(us + [a], la, One), WeightedSum(us + [b], lb, One));
  }

  lemma NevilleOfOnes(q: Modulus, a: int, b: int, s: int, sa: int, sb: int)
    requires IsPrime(q) && !Cong(q, b - a, 0)
    requires Cong(q, sa, 1) && Cong(q, sb, 1) && Cong(q, (b - a) * s, b * sa - a * sb)
    ensures Cong(q, s, 1)
  {
    CongScale(q, b, sa, 1);
    CongScale(q, a, sb, 1);
    CongAdd(q, b * sa, b * 1, a * sb, a * 1);
    assert (b - a) * 1 == b * 1 - a * 1;
    Cancel(q, b - a, s, 1);
  }

  lemma SinglePoint(q: Modulus, x: nat)
    requires IsPrime(q) && 0 < x < q
    ensures Cong(q, WeightedSum([x], Weights(q, [x]), One), 1)
  {
    EvalOne(x);
    assert [x] == [] + [x];
    NumeratorSnoc(q, x, [], x);
    DenominatorSnoc(q, x, [], x);
    CoefficientCorrect(q, x, [x]);
    CongMod(q, 1);
    var l := Coefficient(q, x, [x]);
    CongScale(q, l, 1 % q, 1);
    WeightedSumSnoc([], x, Weights(q, [x]), One);
  }

  /** Neville's recurrence for the full sums: the terms of a and b are added to `NevilleSum`. */
  lemma NevilleAtZero(q: Modulus, us: seq<nat>, l: nat -> int, la: nat -> int, lb: nat -> int, a: nat, b: nat)
    requires Drops(q, us + [a], l, la, b) && Drops(q, us + [b], l, lb, a)
    ensures Cong(q, (b - a) * WeightedSum(us + [a, b], l, One),
                 b * WeightedSum(us + [a], la, One) - a * WeightedSum(us + [b], lb, One))
  {
    hide *;
    DropsSnoc(q, us, a, l, la, b);
    DropsSnoc(q, us, b, l, lb, a);
    NevilleSum(q, us, l, la, lb, a, b);
    OneSnoc(us, a, la);
    OneSnoc(us, b, lb);
    OneSnoc(us, a, l);
    OneSnoc(us + [a], b, l);
    assert us + [a, b] == (us + [a]) + [b];
    LastTwoTerms(q, a, b, WeightedSum(us, l, One), WeightedSum(us, la, One), WeightedSum(us, lb, One),
                 l(a), l(b), la(a), lb(b), WeightedSum(us + [a, b], l, One),
                 WeightedSum(us + [a], la, One), WeightedSum(us + [b], lb, One));
  }

  lemma DropsSnoc(q: Modulus, us: seq<nat>, a: nat, l: nat -> int, m: nat -> int, b: nat)
    requires Drops(q, us + [a], l, m, b)
    ensures Drops(q, us, l, m, b) && Cong(q, l(a) * (b - a), m(a) * b)
  {
    var vs := us + [a];
    assert vs[|us|] == a;
    assert forall i :: 0 <= i < |us| ==> us[i] == vs[i];
  }

  lemma OneSnoc(us: seq<nat>, a: nat, l: nat -> int)
    ensures WeightedSum(us + [a], l, One) == WeightedSum(us, l, One) + l(a)
  {
    WeightedSumSnoc(us, a, l, One);
    EvalOne(a);
  }

  lemma LastTwoTerms(q: Modulus, a: int, b: int, s: int, sa: int, sb: int, la: int, lb: int, ma: int, mb: int,
                     s': int, sa': int, sb': int)
    requires Cong(q, (b - a) * s, b * sa - a * sb)
    requires Cong(q, la * (b - a), ma * b) && Cong(q, lb * (a - b), mb * a)
    requires s' == s + la + lb && sa' == sa + ma && sb' == sb + mb
    ensures Cong(q, (b - a) * s', b * sa' - a * sb')
  {
    CongAdd(q, la * (b - a), ma * b, lb * (a - b), mb * a);
    CongAdd(q, (b - a) * s, b * sa - a * sb, la * (b - a) - lb * (a - b), ma * b - mb * a);
    assert (b - a) * s + (la * (b - a) - lb * (a - b)) == (b - a) * s';
    assert (b * sa - a * sb) + (ma * b - mb * a) == b * sa' - a * sb';
  }

  /** Dividing f by (X - b) drops the point b from the sum. */
  lemma {:induction false} DropPointSum(q: Modulus, ks: seq<nat>, l: nat -> int, m: nat -> int, b: nat, c: seq<int>)
    requires Drops(q, ks, l, m, b)
    ensures Cong(q, WeightedSum(ks, l, c),
                 Eval(c, b) * WeightedSum(ks, l, One) - b * WeightedSum(ks, m, Quotient(c, b)))
  {
    if ks != [] {
      var js, k := ks[..|ks| - 1], ks[|ks| - 1];
      DropPointSum(q, js, l, m, b, c);
      EvalOne(k);
      QuotientCorrect(c, b, k);
      DropPointStep(q, b, k, l(k), m(k), Eval(c, k), Eval(c, b), Eval(Quotient(c, b), k),
                    WeightedSum(js, l, c), WeightedSum(js, l, One), WeightedSum(js, m, Quotient(c, b)));
    }
  }

  lemma DropPointStep(q: Modulus, b: int, k: int, l: int, m: int, fk: int, fb: int, g: int, s: int, s1: int, sq: int)
    requires Cong(q, l * (b - k), m * b) && fk - fb == (k - b) * g
    requires Cong(q, s, fb * s1 - b * sq)
    ensures Cong(q, s + l * fk, fb * (s1 + l) - b * (sq + m * g))
  {
    CongFactor(q, l * (b - k), m * b, g);
    assert l * fk == l * fb - (l * (b - k)) * g by {
      assert fk == fb - (b - k) * g;
      assert l * (fb - (b - k) * g) == l * fb - l * ((b - k) * g);
      assert l * ((b - k) * g) == (l * (b - k)) * g;
    }
    CongAdd(q, l * fb, l * fb, (l * (b - k)) * g, (m * b) * g);
    CongAdd(q, s, fb * s1 - b * sq, l * fk, l * fb - (m * b) * g);
    assert (m * b) * g == b * (m * g);
    assert (fb * s1 - b * sq) + (l * fb - b * (m * g)) == fb * (s1 + l) - b * (sq + m * g);
  }

  /** The interpolation theorem: any polynomial with at most |xs| coefficients is recovered at
      zero from its values on the distinct nonzero points xs. */
  lemma {:induction false} InterpolatesAtZero(q: Modulus, xs: seq<nat>, c: seq<int>)
    requires IsPrime(q) && Points(q, xs) && |c| <= |xs|
    ensures Cong(q, WeightedSum(xs, Weights(q, xs), c), Eval(c, 0))
    decreases |xs|
  {
    if xs != [] {
      var us, b := xs[..|xs| - 1], xs[|xs| - 1];
      assert xs == us + [b];
      var l, m, g := Weights(q, xs), Weights(q, us), Quotient(c, b);
      QuotientDegree(c, b);
      QuotientCorrect(c, b, 0);
      InterpolatesAtZero(q, us, g);
      WeightsDropLast(q, us, us, b);
      DropPointSum(q, us, l, m, b, c);
      CoefficientsSumToOne(q, xs);
      WeightedSumSnoc(us, b, l, c);
      WeightedSumSnoc(us, b, l, One);
      EvalOne(b);
      InterpolationStep(q, b, l(b), Eval(c, 0), Eval(c, b), Eval(g, 0),
                        WeightedSum(us, l, c), WeightedSum(us, l, One), WeightedSum(us, m, g));
    }
  }

  lemma InterpolationStep(q: Modulus, b: int, l: int, f0: int, fb: int, g0: int, s: int, s1: int, sq: int)
    requires Cong(q, s, fb * s1 - b * sq) && Cong(q, s1 + l, 1) && Cong(q, sq, g0)
    requires f0 - fb == (0 - b) * g0
    ensures Cong(q, s + l * fb, f0)
  {
    CongScale(q, b, sq, g0);
    CongScale(q, fb, s1 + l, 1);
    CongAdd(q, s, fb * s1 - b * sq, l * fb, l * fb);
    assert (fb * s1 - b * sq) + l * fb == fb * (s1 + l) - b * sq;
    CongAdd(q, fb * (s1 + l), fb * 1, b * sq, b * g0);
    assert fb * 1 - b * g0 == f0;
  }

  // ---------------------------------------------------------------------------
  // One point too few
  // ---------------------------------------------------------------------------

  /** The product of all -x. */
  function Miss(xs: seq<nat>): int {
    if xs == [] then 1
    else
      var x: int := xs[|xs| - 1];
      Miss(xs[..|xs| - 1]) * (0 - x)
  }

  lemma {:induction false} MissNonzero(q: Modulus, xs: seq<nat>)
    requires IsPrime(q) && Points(q, xs)
    ensures !Cong(q, Miss(xs), 0)
  {
    if xs == [] {
      SmallNonzero(q, 1);
    } else {
      var x: int := xs[|xs| - 1];
      MissNonzero(q, xs[..|xs| - 1]);
      SmallNonzero(q, 0 - x);
      ProductNonzero(q, Miss(xs[..|xs| - 1]), 0 - x);
    }
  }

  /** The quotient keeps the highest coefficient. */
  lemma {:induction false} QuotientLast(c: seq<int>, a: int)
    requires |c| >= 2
    ensures |Quotient(c, a)| == |c| - 1 && Quotient(c, a)[|c| - 2] == c[|c| - 1]
  {
    QuotientDegree(c, a);
    if |c| == 2 {
      assert c[1..][1..] == [];
    } else {
      QuotientLast(c[1..], a);
    }
  }

  /** With one point too few, interpolation misses the value at zero by the highest coefficient
      times the product of the negated points. */
  lemma {:induction false} InterpolationError(q: Modulus, xs: seq<nat>, c: seq<int>)
    requires IsPrime(q) && Points(q, xs) && |c| == |xs| + 1
    ensures Cong(q, Eval(c, 0) - WeightedSum(xs, Weights(q, xs), c), Miss(xs) * c[|xs|])
    decreases |xs|
  {
    if xs == [] {
      assert c[1..] == [] && Eval(c, 0) == c[0];
    } else {
      var us, b := xs[..|xs| - 1], xs[|xs| - 1];
      assert xs == us + [b];
      var l, m, g := Weights(q, xs), Weights(q, us), Quotient(c, b);
      QuotientLast(c, b);
      QuotientCorrect(c, b, 0);
      InterpolationError(q, us, g);
      WeightsDropLast(q, us, us, b);
      DropPointSum(q, us, l, m, b, c);
      CoefficientsSumToOne(q, xs);
      WeightedSumSnoc(us, b, l, c);
      WeightedSumSnoc(us, b, l, One);
      EvalOne(b);
      ErrorStep(q, b, l(b), Eval(c, 0), Eval(c, b), Eval(g, 0),
                WeightedSum(us, l, c), WeightedSum(us, l, One), WeightedSum(us, m, g), Miss(us), c[|xs|]);
    }
  }

  lemma ErrorStep(q: Modulus, b: int, l: int, f0: int, fb: int, g0: int, s: int, s1: int, sq: int, p: int, top: int)
    requires Cong(q, s, fb * s1 - b * sq) && Cong(q, s1 + l, 1) && Cong(q, g0 - sq, p * top)
    requires f0 - fb == (0 - b) * g0
    ensures Cong(q, f0 - (s + l * fb), (p * (0 - b)) * top)
  {
    CongScale(q, fb, s1 + l, 1);
    CongAdd(q, s, fb * s1 - b * sq, l * fb, l * fb);
    assert (fb * s1 - b * sq) + l * fb == fb * (s1 + l) - b * sq;
    CongAdd(q, fb * (s1 + l), fb * 1, b * sq, b * sq);
    CongAdd(q, f0, f0, s + l * fb, fb * 1 - b * sq);
    assert f0 - (fb * 1 - b * sq) == -b * (g0 - sq);
    CongScale(q, -b, g0 - sq, p * top);
    assert -b * (p * top) == (p * (0 - b)) * top;
  }
}
