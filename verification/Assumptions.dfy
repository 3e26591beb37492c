/** The assumptions of the model can be met: for every prime between 2^32 and 2^256 there is a
    valid suite, in every valid suite there are honest sessions of every size, and their keys
    make valid signing systems. */
module Assumptions {
  import opened PrimeField
  import opened Group
  import opened Party
  import opened Wire
  import opened Vss
  import opened ChillDkg
  import opened ChillDkgSession
  import P = SimplPedPop
  import K = KeyExport
  import R = Roast
  import S = RoastSystem

  /** 256^k */
  function Range(k: nat): nat {
    if k == 0 then 1 else 256 * Range(k - 1)
  }

  /** x in k bytes. */
  function Digits(x: nat, k: nat): (b: Bytes)
    ensures |b| == k
  {
    if k == 0 then [] else Digits(x / 256, k - 1) + [x % 256]
  }

  function Number(b: Bytes): nat {
    if b == [] then 0 else Number(b[..|b| - 1]) * 256 + b[|b| - 1]
  }

  lemma {:induction false} NumberOfDigits(x: nat, k: nat)
    requires x < Range(k)
    ensures Number(Digits(x, k)) == x
  {
    if k > 0 {
      NumberOfDigits(x / 256, k - 1);
    }
  }

  lemma {:induction false} DigitsOfNumber(b: Bytes)
    ensures Digits(Number(b), |b|) == b
  {
    if b != [] {
      DigitsOfNumber(b[..|b| - 1]);
    }
  }

  function Parse(q: Modulus, b: Bytes): Option<nat> {
    if |b| == 32 && Number(b) < q then Some(Number(b)) else None
  }

  /** A suite whose hash functions are constant and whose codec is 32 digits. */
  function PlainSuite(q: Modulus): Suite {
    var encode := (x: nat) => Digits(x, 32);
    var parse := (b: Bytes) => Parse(q, b);
    Suite(q, (b: Bytes) => Digits(0, 64), (b: Bytes) => 1, encode, encode, encode, parse, parse)
  }

  lemma SuiteExists(q: Modulus)
    requires IsPrime(q) && 0x1_0000_0000 < q <= Range(32)
    ensures PlainSuite(q).Valid() && PlainSuite(q).q == q
  {
    forall x: nat | x < q
      ensures Parse(q, Digits(x, 32)) == Some(x)
    {
      NumberOfDigits(x, 32);
    }
    forall b: Bytes | Parse(q, b).Some?
      ensures Parse(q, b).value < q && Digits(Parse(q, b).value, 32) == b
    {
      DigitsOfNumber(b);
    }
    forall e: nat, f: nat | e < q && f < q && Digits(e, 32) == Digits(f, 32)
      ensures e == f
    {
      NumberOfDigits(e, 32);
      NumberOfDigits(f, 32);
    }
    hide Digits;
    hide Parse;
    hide Range;
    hide IsPrime;
  }

  function HostKeys(n: nat): (keys: seq<Element>)
    ensures |keys| == n && forall i :: 0 <= i < n ==> keys[i] == Element(i + 1)
  {
    seq(n, i requires 0 <= i < n => BaseMult(i + 1))
  }

  lemma HostKeysDiffer(q: Modulus, n: nat)
    requires n < q
    ensures DistinctKeys(q, HostKeys(n))
  {
    var keys := HostKeys(n);
    forall i, j | 0 <= i < j < n
      ensures !Equal(q, keys[i], keys[j])
    {
      Different(q, i + 1, j + 1);
    }
  }

  lemma Different(q: Modulus, a: nat, b: nat)
    requires a < b < q
    ensures !Cong(q, a, b)
  {
  }

  /** Host keys 1, 2, ..., n. */
  function SessionInputs(n: nat, t: ID): Inputs {
    Inputs(seq(n, i requires 0 <= i < n => i + 1),
           SessionParams(HostKeys(n), t),
           seq(n, i requires 0 <= i < n => Digits(0, 32)))
  }

  lemma HonestSessionExists(s: Suite, n: nat, t: ID)
    requires s.Valid() && 1 <= t <= n <= 0xFFFF_FFFF
    ensures SessionInputs(n, t).Honest(s) && SessionInputs(n, t).N() == n && SessionInputs(n, t).T() == t
  {
    HostKeysDiffer(s.q, n);
    var x := SessionInputs(n, t);
    assert forall i :: 0 <= i < n ==> x.randoms[i] == Digits(0, 32);
    assert forall i :: 0 <= i < n ==> x.hostseckeys[i] == i + 1;
    hide DistinctKeys;
    hide HostKeys;
  }

  /** The signing system of all participants of such a session. */
  ghost function SystemOf(s: Suite, x: Inputs, outputs: seq<P.DKGOutput>, message: Bytes): S.Env
    requires x.Honest(s) && x.N() <= 65535 && |outputs| == x.N() && |outputs[0].pubShares| == x.N()
    requires forall i :: 0 <= i < |outputs| ==> outputs[i].secShare.Some?
  {
    var shares := K.FrostShares(outputs[0].pubShares, x.N());
    S.Env(R.Config(s, K.PublicOf(s.q, shares, x.params.threshold, SortedOf(shares.Keys)), x.T() + 1, message),
          K.Without(K.FrostSecrets(outputs, x.N()), {}))
  }

  lemma SigningSystemExists(s: Suite, n: nat, t: ID, message: Bytes) returns (env: S.Env)
    requires s.Valid() && 1 <= t < n <= 65535
    ensures env.Valid() && env.cfg.suite == s && env.cfg.N() == n && env.cfg.t == t + 1 && |env.Honest()| >= env.cfg.t
  {
    hide Suite.Valid;
    hide Inputs.Honest;
    hide Output;
    hide K.FrostShares;
    hide K.FrostSecrets;
    hide K.Without;
    hide K.PublicOf;
    hide SortedOf;
    hide S.Env.Valid;
    hide SessionInputs;
    HonestSessionExists(s, n, t);
    var x := SessionInputs(n, t);
    K.OutputShape(s, x);
    var outputs := seq(n, i requires 0 <= i < n => Output(s, x, i));
    env := SystemOf(s, x, outputs, message);
    K.SigningReady(s, x, outputs, {}, env);
  }
}
