/** Verifiable secret sharing of ChillDKG: polynomials, their commitments, shares and public
    shares, and sums of polynomials. */
module Vss {
  import opened PrimeField
  import opened Interpolation
  import opened Sums
  import opened Group

  /** The evaluation point of participant i: a 32-bit number. */
  function Point(i: nat): nat {
    (i + 1) % 0x1_0000_0000
  }

  function Logs(es: seq<Element>): (c: seq<int>)
    ensures |c| == |es|
  {
    seq(|es|, k requires 0 <= k < |es| => es[k].log)
  }

  function Commitment(coeffs: seq<nat>): (points: seq<Element>)
    ensures |points| == |coeffs| && Logs(points) == coeffs
  {
    seq(|coeffs|, k requires 0 <= k < |coeffs| => BaseMult(coeffs[k]))
  }

  function SecShare(q: Modulus, coeffs: seq<int>, i: nat): (s: nat)
    ensures s < q
  {
    Eval(coeffs, Point(i)) % q
  }

  function PubShare(points: seq<Element>, i: nat): Element {
    Element(Eval(Logs(points), Point(i)))
  }

  predicate VerifySecShare(q: Modulus, secshare: nat, pubshare: Element) {
    Equal(q, BaseMult(secshare), pubshare)
  }

  // ---------------------------------------------------------------------------
  // The Horner loops
  // ---------------------------------------------------------------------------

  /** One Horner step from the highest coefficient down. */
  lemma EvalDrop(c: seq<int>, k: nat, x: int)
    requires k < |c|
    ensures Eval(c[k..], x) == c[k] + x * Eval(c[k + 1..], x)
  {
  }

  lemma HornerMod(q: Modulus, v: int, x: int, a: int)
    ensures ((v % q) * x % q + a) % q == (a + x * v) % q
  {
    CongMod(q, v);
    CongFactor(q, v % q, v, x);
    CongMod(q, (v % q) * x);
    assert v * x == x * v;
    CongAdd(q, (v % q) * x % q, x * v, a, a);
  }

  /** eval */
  method EvalAt(q: Modulus, coeffs: seq<nat>, x: nat) returns (value: nat)
    ensures value == Eval(coeffs, x) % q
  {
    value := 0;
    var i := |coeffs|;
    assert coeffs[i..] == [];
    while i > 0
      invariant 0 <= i <= |coeffs| && value == Eval(coeffs[i..], x) % q
    {
      i := i - 1;
      EvalDrop(coeffs, i, x);
      HornerMod(q, Eval(coeffs[i + 1..], x), x, coeffs[i]);
      value := (value * x % q + coeffs[i]) % q;
    }
    assert coeffs[0..] == coeffs;
  }

  /** secshares */
  method SecShares(q: Modulus, coeffs: seq<nat>, n: nat) returns (shares: seq<nat>)
    ensures |shares| == n && forall i :: 0 <= i < n ==> shares[i] == SecShare(q, coeffs, i)
  {
    shares := [];
    for i := 0 to n
      invariant |shares| == i && forall k :: 0 <= k < i ==> shares[k] == SecShare(q, coeffs, k)
    {
      var v := EvalAt(q, coeffs, Point(i));
      shares := shares + [v];
    }
  }

  /** commit */
  method Commit(coeffs: seq<nat>) returns (points: seq<Element>)
    ensures points == Commitment(coeffs)
  {
    points := [];
    for i := 0 to |coeffs|
      invariant points == Commitment(coeffs)[..i]
    {
      points := points + [BaseMult(coeffs[i])];
    }
  }

  /** pubshare */
  method ComputePubShare(points: seq<Element>, i: nat) returns (result: Element)
    ensures result == PubShare(points, i)
  {
    result := Zero();
    var j := |points|;
    ghost var c := Logs(points);
    assert c[j..] == [];
    while j > 0
      invariant 0 <= j <= |points| && result == Element(Eval(c[j..], Point(i)))
    {
      j := j - 1;
      EvalDrop(c, j, Point(i));
      result := Add(Mult(Point(i), result), points[j]);
    }
    assert c[0..] == c;
  }

  function PubSharesOf(points: seq<Element>, n: nat): (shares: seq<Element>)
    ensures |shares| == n && forall i :: 0 <= i < n ==> shares[i] == PubShare(points, i)
  {
    seq(n, i requires 0 <= i < n => PubShare(points, i))
  }

  method PubShares(points: seq<Element>, n: nat) returns (shares: seq<Element>)
    ensures shares == PubSharesOf(points, n)
  {
    shares := [];
    for i := 0 to n
      invariant shares == PubSharesOf(points, n)[..i]
    {
      var s := ComputePubShare(points, i);
      shares := shares + [s];
    }
  }

  /** The share check accepts exactly the value of the committed polynomial. */
  lemma VerifyExact(q: Modulus, points: seq<Element>, i: nat, secshare: nat)
    requires secshare < q
    ensures VerifySecShare(q, secshare, PubShare(points, i)) <==> secshare == SecShare(q, Logs(points), i)
  {
  }

  // ---------------------------------------------------------------------------
  // Sums of polynomials
  // ---------------------------------------------------------------------------

  /** Adding b, which may be shorter, into a. */
  function AddPoly(a: seq<int>, b: seq<int>): (c: seq<int>)
    requires |b| <= |a|
    ensures |c| == |a|
  {
    seq(|a|, k requires 0 <= k < |a| => a[k] + if k < |b| then b[k] else 0)
  }

  lemma {:induction false} EvalAdd(a: seq<int>, b: seq<int>, x: int)
    requires |b| <= |a|
    ensures Eval(AddPoly(a, b), x) == Eval(a, x) + Eval(b, x)
  {
    if a != [] {
      var a', b' := a[1..], if b == [] then [] else b[1..];
      assert AddPoly(a, b)[1..] == AddPoly(a', b');
      EvalAdd(a', b', x);
      assert x * (Eval(a', x) + Eval(b', x)) == x * Eval(a', x) + x * Eval(b', x);
      assert b == [] ==> Eval(b, x) == 0 && Eval(b', x) == 0;
    }
  }

  function Zeros(t: nat): seq<int> {
    seq(t, k => 0)
  }

  lemma {:induction false} EvalZeros(t: nat, x: int)
    ensures Eval(Zeros(t), x) == 0
  {
    if t > 0 {
      assert Zeros(t)[1..] == Zeros(t - 1);
      EvalZeros(t - 1, x);
    }
  }

  predicate Fits(ps: seq<seq<int>>, t: nat) {
    forall j :: 0 <= j < |ps| ==> |ps[j]| <= t
  }

  /** The sum of the polynomials ps, with t coefficients. */
  function SumPolys(ps: seq<seq<int>>, t: nat): (c: seq<int>)
    requires Fits(ps, t)
    ensures |c| == t
  {
    if ps == [] then Zeros(t) else AddPoly(SumPolys(ps[..|ps| - 1], t), ps[|ps| - 1])
  }

  function Total(n: nat, f: nat -> int): int {
    if n == 0 then 0 else Total(n - 1, f) + f(n - 1)
  }

  /** Evaluation commutes with summing. */
  lemma {:induction false} EvalSum(ps: seq<seq<int>>, t: nat, x: int, f: nat -> int)
    requires Fits(ps, t) && forall j :: 0 <= j < |ps| ==> f(j) == Eval(ps[j], x)
    ensures Eval(SumPolys(ps, t), x) == Total(|ps|, f)
  {
    if ps == [] {
      EvalZeros(t, x);
    } else {
      var k := |ps| - 1;
      EvalSum(ps[..k], t, x, f);
      EvalAdd(SumPolys(ps[..k], t), ps[k], x);
    }
  }

  lemma {:induction false} TotalCong(q: Modulus, n: nat, f: nat -> int, g: nat -> int)
    requires forall j :: 0 <= j < n ==> Cong(q, f(j), g(j))
    ensures Cong(q, Total(n, f), Total(n, g))
  {
    if n > 0 {
      TotalCong(q, n - 1, f, g);
      CongAdd(q, Total(n - 1, f), Total(n - 1, g), f(n - 1), g(n - 1));
    }
  }

  lemma {:induction false} TotalAdd(n: nat, f: nat -> int, g: nat -> int, h: nat -> int)
    requires forall j :: 0 <= j < n ==> h(j) == f(j) + g(j)
    ensures Total(n, h) == Total(n, f) + Total(n, g)
  {
    if n > 0 {
      TotalAdd(n - 1, f, g, h);
    }
  }

  // ---------------------------------------------------------------------------
  // Reconstruction
  // ---------------------------------------------------------------------------

  function PointsOf(ids: seq<nat>): (xs: seq<nat>)
    ensures |xs| == |ids| && forall k :: 0 <= k < |ids| ==> xs[k] == Point(ids[k])
  {
    seq(|ids|, k requires 0 <= k < |ids| => Point(ids[k]))
  }

  function ShareTerms(q: Modulus, xs: seq<nat>, ids: seq<nat>, shares: seq<nat>): nat -> int {
    (k: nat) => if k < |ids| && ids[k] < |shares| then Coefficient(q, Point(ids[k]), xs) * shares[ids[k]] else 0
  }

  /** Interpolating the secret from the shares of the participants ids. */
  function Reconstruct(q: Modulus, ids: seq<nat>, shares: seq<nat>): nat {
    Total(|ids|, ShareTerms(q, PointsOf(ids), ids, shares)) % q
  }

  /** Any |c| different shares of the polynomial c determine its constant term. */
  lemma SharesDetermineSecret(q: Modulus, c: seq<int>, ids: seq<nat>, shares: seq<nat>)
    requires IsPrime(q) && q > 0x1_0000_0000 && |shares| < 0x1_0000_0000
    requires Distinct(ids) && 1 <= |c| <= |ids| && forall k :: 0 <= k < |ids| ==> ids[k] < |shares|
    requires forall i :: 0 <= i < |shares| ==> shares[i] == SecShare(q, c, i)
    ensures Reconstruct(q, ids, shares) == c[0] % q
  {
    hide IsPrime;
    hide Coefficient;
    hide Eval;
    hide WeightedSum;
    hide SecShare;
    hide ShareTerms;
    hide Distinct;
    hide Points;
    var xs := PointsOf(ids);
    PointsDiffer(q, ids, |shares|);
    InterpolatesAtZero(q, xs, c);
    TermsSum(q, c, xs, ids, shares, |ids|);
    assert xs[..|ids|] == xs;
    EvalAtZero(c);
  }

  lemma PointsDiffer(q: Modulus, ids: seq<nat>, n: nat)
    requires q > 0x1_0000_0000 && n < 0x1_0000_0000 && Distinct(ids) && forall k :: 0 <= k < |ids| ==> ids[k] < n
    ensures Points(q, PointsOf(ids))
  {
  }

  lemma EvalAtZero(c: seq<int>)
    requires c != []
    ensures Eval(c, 0) == c[0]
  {
  }

  lemma {:induction false} TermsSum(q: Modulus, c: seq<int>, xs: seq<nat>, ids: seq<nat>, shares: seq<nat>, n: nat)
    requires xs == PointsOf(ids) && n <= |ids| && forall k :: 0 <= k < |ids| ==> ids[k] < |shares|
    requires forall i :: 0 <= i < |shares| ==> shares[i] == SecShare(q, c, i)
    ensures Cong(q, Total(n, ShareTerms(q, xs, ids, shares)), WeightedSum(xs[..n], Weights(q, xs), c))
  {
    hide Cong;
    hide Coefficient;
    hide Eval;
    hide WeightedSum;
    if n == 0 {
      NoTerms(q, xs, c, ShareTerms(q, xs, ids, shares));
    } else {
      TermsSum(q, c, xs, ids, shares, n - 1);
      TakeSnoc(xs, n - 1);
      WeightedSumSnoc(xs[..n - 1], xs[n - 1], Weights(q, xs), c);
      var l, v := Coefficient(q, xs[n - 1], xs), Eval(c, xs[n - 1]);
      CongMod(q, v);
      CongScale(q, l, v % q, v);
      CongAdd(q, Total(n - 1, ShareTerms(q, xs, ids, shares)), WeightedSum(xs[..n - 1], Weights(q, xs), c), l * (v % q), l * v);
    }
  }

  lemma NoTerms(q: Modulus, xs: seq<nat>, c: seq<int>, f: nat -> int)
    ensures Cong(q, Total(0, f), WeightedSum(xs[..0], Weights(q, xs), c))
  {
  }
}
