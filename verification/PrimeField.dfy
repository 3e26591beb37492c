/** Integer arithmetic modulo the prime order of the group: congruence, inverses by the
    extended Euclidean algorithm, and cancellation.

    Scalars are integers in [0, q). Proofs work on unreduced integers up to `Cong`, so that
    ring identities stay ordinary integer identities. */
module PrimeField {

  type Modulus = q: nat | q > 0 witness 1

  predicate Divides(d: Modulus, n: int) {
    n % d == 0
  }

  ghost predicate IsPrime(q: nat) {
    q >= 2 && forall d: Modulus :: 2 <= d < q ==> !Divides(d, q)
  }

  /** a and b are the same residue modulo q. */
  predicate Cong(q: Modulus, a: int, b: int) {
    a % q == b % q
  }

  lemma MultipleIsCong(q: Modulus, a: int, b: int, k: int)
    requires a == b + q * k
    ensures Cong(q, a, b)
  {
    var m := b / q + k;
    assert a == q * m + b % q by {
      assert b == q * (b / q) + b % q;
      assert q * m == q * (b / q) + q * k;
    }
    RemainderUnique(q, a, m, b % q);
  }

  lemma RemainderUnique(q: Modulus, a: int, m: int, r: int)
    requires 0 <= r < q && a == q * m + r
    ensures a % q == r && a / q == m
  {
    var m', r' := a / q, a % q;
    assert q * m' + r' == q * m + r;
    assert q * (m' - m) == r - r';
    SmallMultiple(q, m' - m);
  }

  lemma SmallMultiple(q: Modulus, k: int)
    requires -(q as int) < q * k < q
    ensures k == 0
  {
  }

  lemma CongMultiple(q: Modulus, a: int, b: int) returns (k: int)
    requires Cong(q, a, b)
    ensures a == b + q * k
  {
    k := a / q - b / q;
    assert a == q * (a / q) + a % q;
    assert b == q * (b / q) + b % q;
    assert q * k == q * (a / q) - q * (b / q);
  }

  lemma CongMod(q: Modulus, a: int)
    ensures Cong(q, a % q, a)
  {
  }

  lemma CongAdd(q: Modulus, a: int, b: int, c: int, d: int)
    requires Cong(q, a, b) && Cong(q, c, d)
    ensures Cong(q, a + c, b + d)
    ensures Cong(q, a - c, b - d)
  {
    var k := CongMultiple(q, a, b);
    var l := CongMultiple(q, c, d);
    assert q * (k + l) == q * k + q * l;
    assert q * (k - l) == q * k - q * l;
    MultipleIsCong(q, a + c, b + d, k + l);
    MultipleIsCong(q, a - c, b - d, k - l);
  }

  /** Adding to a reduced number. */
  lemma ModAdd(q: Modulus, a: int, b: int)
    ensures (a % q + b) % q == (a + b) % q
  {
    CongMod(q, a);
    CongAdd(q, a % q, a, b, b);
  }

  lemma CongMul(q: Modulus, a: int, b: int, c: int, d: int)
    requires Cong(q, a, b) && Cong(q, c, d)
    ensures Cong(q, a * c, b * d)
  {
    var k := CongMultiple(q, a, b);
    var l := CongMultiple(q, c, d);
    assert a * c == b * d + q * (k * d + b * l + q * k * l) by {
      assert a * c == (b + q * k) * (d + q * l);
      assert (b + q * k) * (d + q * l) == b * d + b * (q * l) + (q * k) * d + (q * k) * (q * l);
      assert b * (q * l) == q * (b * l);
      assert (q * k) * d == q * (k * d);
      assert (q * k) * (q * l) == q * (q * k * l);
    }
    MultipleIsCong(q, a * c, b * d, k * d + b * l + q * k * l);
  }

  /** Multiplying both sides of a congruence. */
  lemma CongScale(q: Modulus, m: int, a: int, b: int)
    requires Cong(q, a, b)
    ensures Cong(q, m * a, m * b)
  {
    CongMul(q, m, m, a, b);
  }

  /** Replacing a factor by a congruent one. */
  lemma CongFactor(q: Modulus, a: int, b: int, c: int)
    requires Cong(q, a, b)
    ensures Cong(q, a * c, b * c)
  {
    CongMul(q, a, b, c, c);
  }

  lemma SmallNonzero(q: Modulus, a: int)
    requires 0 < a < q || 0 < -a < q
    ensures !Cong(q, a, 0)
  {
  }

  datatype Bezout = Bezout(x: int, y: int, g: nat)

  /** Extended Euclid. */
  function ExtendedGcd(a: nat, b: nat): (r: Bezout)
    requires a > 0 || b > 0
    ensures r.g > 0 && a * r.x + b * r.y == r.g
    ensures Divides(r.g, a) && Divides(r.g, b)
    decreases b
  {
    if b == 0 then
      assert a % a == 0 by { RemainderUnique(a, a, 1, 0); }
      Bezout(1, 0, a)
    else
      var r := ExtendedGcd(b, a % b);
      assert a * r.y + b * (r.x - (a / b) * r.y) == r.g && Divides(r.g, a) by {
        EuclidStep(a, b, r);
      }
      Bezout(r.y, r.x - (a / b) * r.y, r.g)
  }

  lemma EuclidStep(a: nat, b: nat, r: Bezout)
    requires b > 0 && r.g > 0 && b * r.x + (a % b) * r.y == r.g
    requires Divides(r.g, b) && Divides(r.g, a % b)
    ensures a * r.y + b * (r.x - (a / b) * r.y) == r.g && Divides(r.g, a)
  {
    var d := a / b;
    assert a == b * d + a % b;
    assert a * r.y == (b * d) * r.y + (a % b) * r.y;
    assert b * (r.x - d * r.y) == b * r.x - (b * d) * r.y;
    var u, v := b / r.g, (a % b) / r.g;
    assert b == r.g * u && a % b == r.g * v;
    assert a == r.g * (u * d + v) by {
      assert b * d == r.g * (u * d);
      assert r.g * (u * d + v) == r.g * (u * d) + r.g * v;
    }
    RemainderUnique(r.g, a, u * d + v, 0);
  }

  lemma DivisorAtMost(d: Modulus, n: Modulus)
    requires Divides(d, n)
    ensures d <= n
  {
  }

  /** The inverse used by Scalar.Invert, reduced to [0, q). */
  function Inverse(q: Modulus, a: int): (r: nat)
    ensures r < q
  {
    ExtendedGcd(a % q, q).x % q
  }

  /** Every nonzero residue modulo a prime has an inverse. */
  lemma InverseCorrect(q: Modulus, a: int)
    requires IsPrime(q) && !Cong(q, a, 0)
    ensures Cong(q, a * Inverse(q, a), 1)
  {
    var r := a % q;
    var e := ExtendedGcd(r, q);
    RemainderUnique(q, 0, 0, 0);
    assert 0 < r < q;
    DivisorAtMost(e.g, r);
    assert e.g == 1;
    MultipleIsCong(q, r * e.x, 1, -e.y);
    CongMod(q, a);
    CongMod(q, e.x);
    CongMul(q, a, r, e.x % q, e.x);
  }

  /** A nonzero factor cancels: the integers modulo a prime have no zero divisors. */
  lemma Cancel(q: Modulus, a: int, b: int, c: int)
    requires IsPrime(q) && !Cong(q, a, 0) && Cong(q, a * b, a * c)
    ensures Cong(q, b, c)
  {
    InverseCorrect(q, a);
    CancelInvertible(q, a, Inverse(q, a), b, c);
  }

  lemma CancelInvertible(q: Modulus, a: int, i: int, b: int, c: int)
    requires Cong(q, a * i, 1) && Cong(q, a * b, a * c)
    ensures Cong(q, b, c)
  {
    CongScale(q, i, a * b, a * c);
    CongFactor(q, a * i, 1, b);
    CongFactor(q, a * i, 1, c);
    assert i * (a * b) == (a * i) * b;
    assert i * (a * c) == (a * i) * c;
  }

  lemma ProductNonzero(q: Modulus, a: int, b: int)
    requires IsPrime(q) && !Cong(q, a, 0) && !Cong(q, b, 0)
    ensures !Cong(q, a * b, 0)
  {
    if Cong(q, a * b, 0) {
      assert a * 0 == 0;
      Cancel(q, a, b, 0);
    }
  }
}
