/** The expected number of ROAST sessions, over exact reals: n signers, sessions of t, and f
    malicious signers of which each session that fails removes one. */
module ExpectedSessions {

  /** Binomial coefficients, by Pascal's rule. */
  function Comb(n: nat, k: nat): nat {
    if k == 0 then 1 else if n == 0 then 0 else Comb(n - 1, k - 1) + Comb(n - 1, k)
  }

  /** (k + 1) * C(n, k + 1) == (n - k) * C(n, k), and (n - k) * C(n, k) == n * C(n - 1, k). */
  lemma {:induction false} Absorption(n: nat, k: nat)
    requires k <= n
    ensures (k + 1) * Comb(n, k + 1) == (n - k) * Comb(n, k)
    ensures k < n ==> (n - k) * Comb(n, k) == n * Comb(n - 1, k)
  {
    if k == n {
      CombBeyond(n, n + 1);
    } else {
      var a := Comb(n - 1, k);
      Absorption(n - 1, k);
      AbsorbUp(n, k, a, Comb(n - 1, k + 1));
      if k > 0 {
        Absorption(n - 1, k - 1);
        AbsorbDown(n, k, a, Comb(n - 1, k - 1));
      }
    }
  }

  lemma AbsorbUp(n: nat, k: nat, a: nat, c: nat)
    requires (k + 1) * c == (n - 1 - k) * a
    ensures (k + 1) * (a + c) == n * a
  {
  }

  lemma AbsorbDown(n: nat, k: nat, a: nat, b: nat)
    requires k * a == (n - k) * b
    ensures (n - k) * (b + a) == n * a
  {
  }

  lemma {:induction false} CombBeyond(n: nat, k: nat)
    requires k > n
    ensures Comb(n, k) == 0
  {
    if n > 0 {
      CombBeyond(n - 1, k - 1);
      CombBeyond(n - 1, k);
    }
  }

  lemma {:induction false} CombPositive(n: nat, k: nat)
    requires k <= n
    ensures Comb(n, k) > 0
  {
    if k > 0 {
      CombPositive(n - 1, k - 1);
    }
  }

  // ---------------------------------------------------------------------------
  // Success probabilities
  // ---------------------------------------------------------------------------

  /** With m malicious signers removed, a session of t signers avoids the other f - m with
      probability C(n - f, t) / C(n - m, t). */
  function P(n: nat, t: nat, f: nat, m: nat): real
    requires m <= f <= n && t <= n - f
  {
    CombPositive(n - m, t);
    Ratio(Comb(n - f, t), Comb(n - m, t))
  }

  function Ratio(x: nat, y: nat): real
    requires y > 0
  {
    x as real / y as real
  }

  /** The same when malicious signers are drawn with weight alpha. */
  function PAlpha(h: nat, d: nat, t: nat, alpha: real): real
    requires t <= h && alpha > 0.0
  {
    if t == 0 then 1.0
    else PAlpha(h, d, t - 1, alpha) * Factor(h - (t - 1), d, alpha)
  }

  /** h / (h + d * alpha) */
  function Factor(h: nat, d: nat, alpha: real): (r: real)
    requires h > 0 && alpha > 0.0
    ensures 0.0 < r <= 1.0
  {
    FactorBounds(h as real, d as real * alpha);
    h as real / (h as real + d as real * alpha)
  }

  lemma FactorBounds(h: real, e: real)
    requires h > 0.0 && e >= 0.0
    ensures h + e > 0.0 && 0.0 < h / (h + e) <= 1.0
  {
    DivideBelow(h, h + e);
  }

  lemma DivideBelow(a: real, b: real)
    requires 0.0 < a <= b
    ensures 0.0 < a / b <= 1.0
  {
    var r := a / b;
    assert r * b == a;
    Quotient(r, a, b);
  }

  lemma Quotient(r: real, a: real, b: real)
    requires 0.0 < a <= b && r * b == a
    ensures 0.0 < r <= 1.0
  {
  }

  /** Quotients of binomials as a product: one more signer multiplies by (a - t) / (b - t). */
  lemma RatioStep(a: nat, b: nat, t: nat)
    requires t < a <= b
    ensures Comb(b, t) > 0 && Comb(b, t + 1) > 0
    ensures Ratio(Comb(a, t + 1), Comb(b, t + 1)) == Ratio(Comb(a, t), Comb(b, t)) * Ratio(a - t, b - t)
  {
    hide Comb;
    hide Ratio;
    CombPositive(b, t);
    CombPositive(b, t + 1);
    Absorption(a, t);
    Absorption(b, t);
    RatioOfNats(Comb(a, t), Comb(b, t), Comb(a, t + 1), Comb(b, t + 1), t + 1, a - t, b - t);
  }

  lemma RatioOfNats(x: nat, y: nat, x': nat, y': nat, k: nat, u: nat, v: nat)
    requires y > 0 && y' > 0 && k > 0 && v > 0 && k * x' == u * x && k * y' == v * y
    ensures Ratio(x', y') == Ratio(x, y) * Ratio(u, v)
  {
    CastProduct(k, x', u, x);
    CastProduct(k, y', v, y);
    RatioArithmetic(x as real, y as real, x' as real, y' as real, k as real, u as real, v as real);
  }

  lemma CastProduct(a: nat, b: nat, c: nat, d: nat)
    requires a * b == c * d
    ensures a as real * b as real == c as real * d as real
  {
    assert (a * b) as real == a as real * b as real;
    assert (c * d) as real == c as real * d as real;
  }

  lemma RatioArithmetic(x: real, y: real, x': real, y': real, k: real, u: real, v: real)
    requires y > 0.0 && y' > 0.0 && k > 0.0 && v > 0.0
    requires k * x' == u * x && k * y' == v * y
    ensures x' / y' == x / y * (u / v)
  {
    var r, s := x / y, u / v;
    assert r * y == x && s * v == u;
    var w := r * s;
    assert w * (v * y) == (r * y) * (s * v);
    assert w * (k * y') == k * x';
    assert k * (w * y') == k * x';
    CancelFactor(k, w * y', x');
    assert w * y' == x';
  }

  lemma CancelFactor(k: real, a: real, b: real)
    requires k > 0.0 && k * a == k * b
    ensures a == b
  {
    assert k * (a - b) == 0.0;
  }

  /** At alpha = 1 the weighted form is the hypergeometric one. */
  lemma {:induction false} AlphaOneIsExact(n: nat, t: nat, f: nat, m: nat)
    requires m <= f <= n && t <= n - f
    ensures PAlpha(n - f, f - m, t, 1.0) == P(n, t, f, m)
  {
    hide Comb;
    hide Ratio;
    hide Factor;
    if t == 0 {
      NobodyDrawn(n - f, n - m);
    } else {
      AlphaOneIsExact(n, t - 1, f, m);
      RatioStep(n - f, n - m, t - 1);
      FactorAtOne(n - f - (t - 1), f - m);
    }
  }

  lemma NobodyDrawn(a: nat, b: nat)
    ensures Comb(b, 0) > 0 && Ratio(Comb(a, 0), Comb(b, 0)) == 1.0
  {
  }

  lemma FactorAtOne(h: nat, d: nat)
    requires h > 0
    ensures Factor(h, d, 1.0) == Ratio(h, h + d)
  {
  }

  lemma FactorAntitone(h: nat, d: nat, alpha: real, beta: real)
    requires h > 0 && 0.0 < alpha <= beta
    ensures Factor(h, d, beta) <= Factor(h, d, alpha)
  {
    var x, a, b := h as real, d as real * alpha, d as real * beta;
    assert d as real * (beta - alpha) >= 0.0;
    Reciprocal(x, x + a, x + b);
  }

  lemma Reciprocal(x: real, u: real, v: real)
    requires x > 0.0 && 0.0 < u <= v
    ensures x / v <= x / u
  {
    var r, s := x / v, x / u;
    assert r * v == x && s * u == x;
    SmallerQuotient(r, s, x, u, v);
  }

  lemma SmallerQuotient(r: real, s: real, x: real, u: real, v: real)
    requires x > 0.0 && 0.0 < u <= v && r * v == x && s * u == x
    ensures r <= s
  {
  }

  lemma {:induction false} PAlphaBounds(h: nat, d: nat, t: nat, alpha: real)
    requires t <= h && alpha > 0.0
    ensures 0.0 < PAlpha(h, d, t, alpha) <= 1.0
  {
    if t > 0 {
      PAlphaBounds(h, d, t - 1, alpha);
      ProductBounds(PAlpha(h, d, t - 1, alpha), Factor(h - (t - 1), d, alpha));
    }
  }

  lemma ProductBounds(a: real, b: real)
    requires 0.0 < a <= 1.0 && 0.0 < b <= 1.0
    ensures 0.0 < a * b <= 1.0
  {
    assert a * (1.0 - b) >= 0.0;
  }

  lemma {:induction false} PAlphaAntitone(h: nat, d: nat, t: nat, alpha: real, beta: real)
    requires t <= h && 0.0 < alpha <= beta
    ensures PAlpha(h, d, t, beta) <= PAlpha(h, d, t, alpha)
  {
    if t > 0 {
      PAlphaAntitone(h, d, t - 1, alpha, beta);
      PAlphaBounds(h, d, t - 1, alpha);
      PAlphaBounds(h, d, t - 1, beta);
      FactorAntitone(h - (t - 1), d, alpha, beta);
      ProductMonotone(PAlpha(h, d, t - 1, beta), PAlpha(h, d, t - 1, alpha), Factor(h - (t - 1), d, beta), Factor(h - (t - 1), d, alpha));
    }
  }

  lemma ProductMonotone(a: real, b: real, c: real, d: real)
    requires 0.0 <= a <= b && 0.0 <= c <= d
    ensures a * c <= b * d
  {
    assert a * (d - c) >= 0.0;
    assert (b - a) * d >= 0.0;
  }

  // ---------------------------------------------------------------------------
  // The expectation
  // ---------------------------------------------------------------------------

  /** One session, and with probability 1 - p what follows. */
  function Next(p: real, e: real): real {
    1.0 + (1.0 - p) * e
  }

  /** The backward recurrence from E[f] = 1, for any probabilities. */
  function Recurrence(p: nat -> real, f: nat, m: nat): real
    requires m <= f
    decreases f - m
  {
    if m == f then 1.0 else Next(p(m), Recurrence(p, f, m + 1))
  }

  function Shrink(x: real, p: real): real {
    x * (1.0 - p)
  }

  /** (1 - p(m)) * ... * (1 - p(k - 1)) */
  function Failures(p: nat -> real, m: nat, k: nat): real
    requires m <= k
  {
    if m == k then 1.0 else Shrink(Failures(p, m, k - 1), p(k - 1))
  }

  lemma {:induction false} FailuresFront(p: nat -> real, m: nat, k: nat)
    requires m < k
    ensures Failures(p, m, k) == (1.0 - p(m)) * Failures(p, m + 1, k)
    decreases k
  {
    if m + 1 < k {
      FailuresFront(p, m, k - 1);
      Associate(1.0 - p(m), Failures(p, m + 1, k - 1), 1.0 - p(k - 1));
    }
  }

  lemma Associate(x: real, y: real, z: real)
    ensures (x * y) * z == x * (y * z)
  {
  }

  /** The sum over k from m to e of the probability that the first k - m sessions fail. */
  function Closed(p: nat -> real, m: nat, e: nat): real
    requires m <= e
    decreases e
  {
    if e == m then 1.0 else Closed(p, m, e - 1) + Failures(p, m, e)
  }

  /** Pulling out the first factor. */
  lemma {:induction false} ClosedFront(p: nat -> real, m: nat, e: nat)
    requires m < e
    ensures Closed(p, m, e) == Next(p(m), Closed(p, m + 1, e))
    decreases e
  {
    hide Shrink;
    hide Next;
    FailuresFront(p, m, e);
    if e > m + 1 {
      ClosedFront(p, m, e - 1);
      NextAdd(p(m), Closed(p, m + 1, e - 1), Failures(p, m + 1, e));
    } else {
      NextOne(p(m));
    }
  }

  lemma NextAdd(p: real, c: real, g: real)
    ensures Next(p, c) + (1.0 - p) * g == Next(p, c + g)
  {
  }

  lemma NextOne(p: real)
    ensures 1.0 + (1.0 - p) * 1.0 == Next(p, 1.0)
  {
  }

  /** The recurrence equals the closed sum of products. */
  lemma {:induction false} RecurrenceIsClosed(p: nat -> real, f: nat, m: nat)
    requires m <= f
    ensures Recurrence(p, f, m) == Closed(p, m, f)
    decreases f - m
  {
    if m < f {
      RecurrenceIsClosed(p, f, m + 1);
      ClosedFront(p, m, f);
    }
  }

  /** Between one session and one more than there are malicious signers left. */
  lemma {:induction false} RecurrenceBounds(p: nat -> real, f: nat, m: nat)
    requires m <= f && forall k :: m <= k < f ==> 0.0 <= p(k) <= 1.0
    ensures 1.0 <= Recurrence(p, f, m) <= (f - m + 1) as real
    decreases f - m
  {
    if m < f {
      RecurrenceBounds(p, f, m + 1);
      StepBounds(p(m), Recurrence(p, f, m + 1));
      hide Next;
      assert (f - m + 1) as real == 1.0 + (f - m) as real;
    }
  }

  lemma StepBounds(p: real, e: real)
    requires 0.0 <= p <= 1.0 && e >= 1.0
    ensures 1.0 <= Next(p, e) <= 1.0 + e
  {
    assert p * e >= 0.0;
    assert (1.0 - p) * e >= 0.0;
    assert (1.0 - p) * e == e - p * e;
  }

  /** Smaller success probabilities mean more sessions. */
  lemma {:induction false} RecurrenceMonotone(p: nat -> real, p': nat -> real, f: nat, m: nat)
    requires m <= f && forall k :: m <= k < f ==> 0.0 <= p'(k) <= p(k) <= 1.0
    ensures Recurrence(p, f, m) <= Recurrence(p', f, m)
    decreases f - m
  {
    if m < f {
      RecurrenceMonotone(p, p', f, m + 1);
      RecurrenceBounds(p, f, m + 1);
      ProductMonotone(1.0 - p(m), 1.0 - p'(m), Recurrence(p, f, m + 1), Recurrence(p', f, m + 1));
    }
  }

  lemma {:induction false} RecurrenceEqual(p: nat -> real, p': nat -> real, f: nat, m: nat)
    requires m <= f && forall k :: m <= k < f ==> p(k) == p'(k)
    ensures Recurrence(p, f, m) == Recurrence(p', f, m)
    decreases f - m
  {
    if m < f {
      RecurrenceEqual(p, p', f, m + 1);
    }
  }

  // ---------------------------------------------------------------------------
  // The three programs
  // ---------------------------------------------------------------------------

  function Ps(n: nat, t: nat, f: nat): nat -> real
    requires f <= n && t <= n - f
  {
    (m: nat) => if m <= f then P(n, t, f, m) else 1.0
  }

  function PsAlpha(n: nat, t: nat, f: nat, alpha: real): nat -> real
    requires f <= n && t <= n - f && alpha > 0.0
  {
    (m: nat) => if m <= f then PAlpha(n - f, f - m, t, alpha) else 1.0
  }

  /** The list filled from the end: E[f] = 1 and E[m] from E[m + 1]. */
  method Backward(p: seq<real>, ghost q: nat -> real, f: nat) returns (E: seq<real>)
    requires |p| == f + 1 && forall m :: 0 <= m <= f ==> p[m] == q(m)
    ensures |E| == f + 2 && E[f + 1] == 0.0 && forall m :: 0 <= m <= f ==> E[m] == Recurrence(q, f, m)
  {
    hide Next;
    var a := new real[f + 2](_ => 0.0);
    a[f] := 1.0;
    var m := f;
    while m > 0
      invariant 0 <= m <= f && a[f + 1] == 0.0 && forall k :: m <= k <= f ==> a[k] == Recurrence(q, f, k)
    {
      m := m - 1;
      a[m] := Next(p[m], a[m + 1]);
    }
    E := a[..];
  }

  /** compute_E0 */
  method ComputeE0(n: nat, t: nat, f: nat) returns (p: seq<real>, E: seq<real>)
    requires f <= n && t <= n - f
    ensures |p| == f + 1 && forall m :: 0 <= m <= f ==> p[m] == P(n, t, f, m)
    ensures |E| == f + 2 && E[f + 1] == 0.0 && forall m :: 0 <= m <= f ==> E[m] == Recurrence(Ps(n, t, f), f, m)
  {
    p := seq(f + 1, m requires 0 <= m <= f => P(n, t, f, m));
    E := Backward(p, Ps(n, t, f), f);
  }

  /** compute_E0_closed */
  method ComputeE0Closed(n: nat, t: nat, f: nat) returns (result: real)
    requires f <= n && t <= n - f
    ensures result == Recurrence(Ps(n, t, f), f, 0)
  {
    hide Shrink;
    hide P;
    hide Next;
    ghost var p := Ps(n, t, f);
    result := 0.0;
    for m := 0 to f + 1
      invariant result == if m == 0 then 0.0 else Closed(p, 0, m - 1)
    {
      var term := 1.0;
      for j := 0 to m
        invariant term == Failures(p, 0, j)
      {
        term := Shrink(term, P(n, t, f, j));
      }
      result := result + term;
    }
    RecurrenceIsClosed(p, f, 0);
  }

  /** compute_E0_alpha */
  method ComputeE0Alpha(n: nat, t: nat, f: nat, alpha: real) returns (ps: seq<real>, E: seq<real>)
    requires f <= n && t <= n - f && alpha > 0.0
    ensures |ps| == f + 1 && forall m :: 0 <= m <= f ==> ps[m] == PAlpha(n - f, f - m, t, alpha)
    ensures |E| == f + 2 && E[f + 1] == 0.0 && forall m :: 0 <= m <= f ==> E[m] == Recurrence(PsAlpha(n, t, f, alpha), f, m)
  {
    ps := [];
    for m := 0 to f + 1
      invariant |ps| == m && forall i :: 0 <= i < m ==> ps[i] == PAlpha(n - f, f - i, t, alpha)
    {
      var pm := 1.0;
      for k := 0 to t
        invariant pm == PAlpha(n - f, f - m, k, alpha)
      {
        var h := n - f - k;
        pm := pm * Factor(h, f - m, alpha);
      }
      ps := ps + [pm];
    }
    E := Backward(ps, PsAlpha(n, t, f, alpha), f);
  }

  // ---------------------------------------------------------------------------
  // What they compute
  // ---------------------------------------------------------------------------

  /** Recurrence and closed sum agree, lie between 1 and f + 1, and are the weighted
      expectation at alpha = 1. */
  lemma ExpectationFacts(n: nat, t: nat, f: nat)
    requires f <= n && t <= n - f
    ensures Recurrence(Ps(n, t, f), f, 0) == Closed(Ps(n, t, f), 0, f)
    ensures 1.0 <= Recurrence(Ps(n, t, f), f, 0) <= (f + 1) as real
    ensures Recurrence(PsAlpha(n, t, f, 1.0), f, 0) == Recurrence(Ps(n, t, f), f, 0)
  {
    var p, p1 := Ps(n, t, f), PsAlpha(n, t, f, 1.0);
    RecurrenceIsClosed(p, f, 0);
    forall m | 0 <= m < f
      ensures p1(m) == p(m) && 0.0 <= p(m) <= 1.0
    {
      AlphaOneIsExact(n, t, f, m);
      PAlphaBounds(n - f, f - m, t, 1.0);
    }
    RecurrenceBounds(p, f, 0);
    RecurrenceEqual(p1, p, f, 0);
  }

  /** The weighted expectation stays in the same bounds and grows with alpha. */
  lemma AlphaMonotone(n: nat, t: nat, f: nat, alpha: real, beta: real)
    requires f <= n && t <= n - f && 0.0 < alpha <= beta
    ensures 1.0 <= Recurrence(PsAlpha(n, t, f, alpha), f, 0) <= Recurrence(PsAlpha(n, t, f, beta), f, 0) <= (f + 1) as real
  {
    var p, p' := PsAlpha(n, t, f, alpha), PsAlpha(n, t, f, beta);
    forall m | 0 <= m < f
      ensures 0.0 <= p'(m) <= p(m) <= 1.0
    {
      PAlphaBounds(n - f, f - m, t, alpha);
      PAlphaBounds(n - f, f - m, t, beta);
      PAlphaAntitone(n - f, f - m, t, alpha, beta);
    }
    RecurrenceBounds(p, f, 0);
    RecurrenceBounds(p', f, 0);
    RecurrenceMonotone(p, p', f, 0);
  }
}
