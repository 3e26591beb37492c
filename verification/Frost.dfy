/** FROST signing: binding factors, nonce commitments, the share check, aggregation, and why
    an aggregate of valid shares is a Schnorr signature. */
module Frost {
  import opened PrimeField
  import opened Interpolation
  import opened Sums
  import opened Group
  import opened Party

  /** eddsa.Public. */
  datatype Public = Public(partyIDs: seq<ID>, threshold: nat, shares: map<ID, Element>, groupKey: Element)

  datatype PreShare = PreShare(D: Element, E: Element)

  datatype NonceState = NonceState(d: nat, e: nat)

  datatype Signature = Signature(R: Element, S: nat)

  /** PreRound: the public commitments to a pair of nonces. */
  function Commit(n: NonceState): PreShare {
    PreShare(BaseMult(n.d), BaseMult(n.e))
  }

  // ---------------------------------------------------------------------------
  // Hash inputs
  // ---------------------------------------------------------------------------

  /** "FROST-SHA512" */
  const DomainTag: Bytes := [70, 82, 79, 83, 84, 45, 83, 72, 65, 53, 49, 50]

  /** The list B: identifier and commitments of every signer, in order. */
  function CommitmentList(s: Suite, ids: seq<ID>, pre: map<ID, PreShare>): Bytes
    requires forall id <- ids :: id in pre
  {
    if ids == [] then []
    else
      var id := ids[|ids| - 1];
      CommitmentList(s, ids[..|ids| - 1], pre) + (IDBytes(id) + s.Encode(pre[id].D) + s.Encode(pre[id].E))
  }

  /** The string hashed for signer id: tag, identifier, message digest, list B. */
  function BindingInput(s: Suite, id: ID, ids: seq<ID>, pre: map<ID, PreShare>, message: Bytes): Bytes
    requires forall id <- ids :: id in pre
  {
    DomainTag + IDBytes(id) + s.sha512(message) + CommitmentList(s, ids, pre)
  }

  function BindingFactor(s: Suite, id: ID, ids: seq<ID>, pre: map<ID, PreShare>, message: Bytes): nat
    requires forall id <- ids :: id in pre
  {
    s.uniform(s.sha512(BindingInput(s, id, ids, pre, message)))
  }

  /** The buffer as it is first filled, by appending. */
  method BindingBuffer(s: Suite, first: ID, signerSet: seq<ID>, preShares: map<ID, PreShare>, message: Bytes)
    returns (buffer: Bytes)
    requires forall id <- signerSet :: id in preShares
    ensures buffer == BindingInput(s, first, signerSet, preShares, message)
  {
    buffer := DomainTag + IDBytes(first) + s.sha512(message);
    for i := 0 to |signerSet|
      invariant buffer == DomainTag + IDBytes(first) + s.sha512(message) + CommitmentList(s, signerSet[..i], preShares)
    {
      var id := signerSet[i];
      TakeSnoc(signerSet, i);
      buffer := buffer + (IDBytes(id) + s.Encode(preShares[id].D) + s.Encode(preShares[id].E));
    }
    assert signerSet[..|signerSet|] == signerSet;
  }

  /** Both implementations of the binding factors: one buffer, started with the identifier
      `first` and patched in place for every signer. `first` leaves no trace. */
  method ComputeBindingFactors(s: Suite, first: ID, signerSet: seq<ID>, preShares: map<ID, PreShare>, message: Bytes)
    returns (factors: map<ID, nat>)
    requires forall id <- signerSet :: id in preShares
    ensures factors == Factors(s, signerSet, preShares, message)
  {
    var offset := |DomainTag|;
    var buffer := BindingBuffer(s, first, signerSet, preShares, message);
    factors := map[];
    ghost var last := first;
    for i := 0 to |signerSet|
      invariant buffer == BindingInput(s, last, signerSet, preShares, message)
      invariant forall id :: id in factors <==> id in signerSet[..i]
      invariant forall id :: id in factors ==> factors[id] == BindingFactor(s, id, signerSet, preShares, message)
    {
      var id := signerSet[i];
      PatchIdentifier(s, last, id, signerSet, preShares, message);
      buffer := buffer[..offset] + IDBytes(id) + buffer[offset + 2..];
      last := id;
      factors := factors[id := s.uniform(s.sha512(buffer))];
      TakeSnoc(signerSet, i);
    }
  }

  /** Overwriting the two identifier bytes gives the input of another signer. */
  lemma PatchIdentifier(s: Suite, previous: ID, id: ID, ids: seq<ID>, pre: map<ID, PreShare>, message: Bytes)
    requires forall id <- ids :: id in pre
    ensures
      var b := BindingInput(s, previous, ids, pre, message);
      |b| >= 14 && b[..12] + IDBytes(id) + b[14..] == BindingInput(s, id, ids, pre, message)
  {
  }

  /** D + [rho]E */
  function NonceShare(rho: nat, p: PreShare): Element {
    Add(Mult(rho, p.E), p.D)
  }

  method ComputeNonceCommitments(signerSet: seq<ID>, preShares: map<ID, PreShare>, factors: map<ID, nat>)
    returns (nonceShares: map<ID, Element>, aggregateNonce: Element)
    requires forall id <- signerSet :: id in preShares && id in factors
    ensures nonceShares == NonceShares(signerSet, preShares, factors)
    ensures aggregateNonce == AggregateNonce(signerSet, nonceShares)
  {
    nonceShares, aggregateNonce := map[], Zero();
    ghost var all := NonceShares(signerSet, preShares, factors);
    for i := 0 to |signerSet|
      invariant forall id :: id in nonceShares <==> id in signerSet[..i]
      invariant forall id :: id in nonceShares ==> nonceShares[id] == all[id]
      invariant aggregateNonce == Element(Sum(signerSet[..i], Log(all)))
    {
      var id := signerSet[i];
      var ri := NonceShare(factors[id], preShares[id]);
      TakeSnoc(signerSet, i);
      SumSnoc(signerSet[..i], id, Log(all));
      nonceShares := nonceShares[id := ri];
      aggregateNonce := Add(aggregateNonce, ri);
    }
    assert signerSet[..|signerSet|] == signerSet;
    assert nonceShares == all;
  }

  /** The logarithms of a map of elements, 0 outside its domain. */
  function Log(m: map<ID, Element>): nat -> int {
    (k: nat) => if k < 65536 && k in m then m[k].log else 0
  }

  function Value(m: map<ID, nat>): nat -> int {
    (k: nat) => if k < 65536 && k in m then m[k] else 0
  }

  // ---------------------------------------------------------------------------
  // Keys
  // ---------------------------------------------------------------------------

  /** The terms of the interpolation of the public shares at zero. */
  function KeyTerms(q: Modulus, ids: seq<ID>, shares: map<ID, Element>): nat -> int {
    (k: nat) => if k < 65536 && k in shares then Coefficient(q, k, ids) * shares[k].log else 0
  }

  /** The group key interpolated from the shares of ids. */
  function InterpolatedKey(q: Modulus, ids: seq<ID>, shares: map<ID, Element>): Element {
    Element(Sum(ids, KeyTerms(q, ids, shares)))
  }

  /** computeGroupKey */
  method ComputeGroupKey(q: Modulus, partyIDs: seq<ID>, shares: map<ID, Element>) returns (groupKey: Element)
    requires IsPrime(q) && q > 65535 && IsPartySet(partyIDs) && forall id <- partyIDs :: id in shares
    ensures groupKey == InterpolatedKey(q, partyIDs, shares)
  {
    groupKey := Zero();
    for i := 0 to |partyIDs|
      invariant groupKey == Element(Sum(partyIDs[..i], KeyTerms(q, partyIDs, shares)))
    {
      var id := partyIDs[i];
      var lagrange := Lagrange(q, id, partyIDs);
      groupKey := Add(groupKey, Mult(lagrange.value, shares[id]));
      TakeSnoc(partyIDs, i);
      SumSnoc(partyIDs[..i], id, KeyTerms(q, partyIDs, shares));
    }
    assert partyIDs[..|partyIDs|] == partyIDs;
  }

  /** The public shares lie on the polynomial with coefficients c. */
  ghost predicate OnPolynomial(q: Modulus, ids: seq<ID>, shares: map<ID, Element>, c: seq<int>) {
    forall id <- ids :: id in shares && Cong(q, shares[id].log, Eval(c, id))
  }

  /** Keys as key generation leaves them: threshold + 1 coefficients, every share on the
      polynomial, and the group key its value at zero. */
  ghost predicate ConsistentKeys(q: Modulus, pk: Public) {
    && IsPartySet(pk.partyIDs) && pk.threshold + 1 <= |pk.partyIDs| && pk.shares.Keys == Members(pk.partyIDs)
    && exists c: seq<int> :: KeyPolynomial(q, pk, c)
  }

  ghost predicate KeyPolynomial(q: Modulus, pk: Public, c: seq<int>) {
    && |c| == pk.threshold + 1
    && OnPolynomial(q, pk.partyIDs, pk.shares, c)
    && Cong(q, pk.groupKey.log, Eval(c, 0))
  }

  /** Shares on a polynomial interpolate to the weighted sum of its values. */
  lemma InterpolatedKeyIsWeighted(q: Modulus, ids: seq<ID>, shares: map<ID, Element>, c: seq<int>)
    requires OnPolynomial(q, ids, shares, c)
    ensures Cong(q, InterpolatedKey(q, ids, shares).log, WeightedSum(ids, Weights(q, ids), c))
  {
    var f, g := KeyTerms(q, ids, shares), PolynomialTerms(q, ids, c);
    forall i | 0 <= i < |ids|
      ensures Cong(q, f(ids[i]), g(ids[i]))
    {
      CongScale(q, Coefficient(q, ids[i], ids), shares[ids[i]].log, Eval(c, ids[i]));
    }
    SumCong(q, ids, f, g);
    WeightedSumAsSum(q, ids, ids, c);
  }

  /** Interpolating the shares of any large enough set of parties gives the value at zero. */
  lemma InterpolatedKeyIsConstantTerm(q: Modulus, ids: seq<ID>, shares: map<ID, Element>, c: seq<int>)
    requires IsPrime(q) && q > 65535 && IsPartySet(ids) && |c| <= |ids| && OnPolynomial(q, ids, shares, c)
    ensures Cong(q, InterpolatedKey(q, ids, shares).log, Eval(c, 0))
  {
    PartySetPoints(q, ids);
    InterpolatesAtZero(q, ids, c);
    InterpolatedKeyIsWeighted(q, ids, shares, c);
  }

  /** With one party too few, the interpolation is the value at zero if and only if the highest
      coefficient is zero. */
  lemma OneShareTooFew(q: Modulus, ids: seq<ID>, shares: map<ID, Element>, c: seq<int>)
    requires IsPrime(q) && q > 65535 && IsPartySet(ids) && |c| == |ids| + 1 && OnPolynomial(q, ids, shares, c)
    ensures Cong(q, InterpolatedKey(q, ids, shares).log, Eval(c, 0)) <==> Cong(q, c[|ids|], 0)
  {
    PartySetPoints(q, ids);
    InterpolationError(q, ids, c);
    MissNonzero(q, ids);
    InterpolatedKeyIsWeighted(q, ids, shares, c);
    hide WeightedSum;
    hide InterpolatedKey;
    MissedBy(q, Eval(c, 0), WeightedSum(ids, Weights(q, ids), c), InterpolatedKey(q, ids, shares).log, Miss(ids), c[|ids|]);
  }

  lemma MissedBy(q: Modulus, f0: int, w: int, key: int, p: int, top: int)
    requires IsPrime(q) && Cong(q, f0 - w, p * top) && Cong(q, key, w) && !Cong(q, p, 0)
    ensures Cong(q, key, f0) <==> Cong(q, top, 0)
  {
    if Cong(q, key, f0) {
      CongAdd(q, f0, w, w, w);
      if !Cong(q, top, 0) {
        ProductNonzero(q, p, top);
      }
    }
    if Cong(q, top, 0) {
      CongScale(q, p, top, 0);
      CongAdd(q, f0 - w, p * 0, w, w);
    }
  }

  function PolynomialTerms(q: Modulus, ids: seq<nat>, c: seq<int>): nat -> int {
    (k: nat) => Coefficient(q, k, ids) * Eval(c, k)
  }

  lemma {:induction false} WeightedSumAsSum(q: Modulus, ks: seq<nat>, ids: seq<nat>, c: seq<int>)
    ensures WeightedSum(ks, Weights(q, ids), c) == Sum(ks, PolynomialTerms(q, ids, c))
  {
    if ks != [] {
      WeightedSumAsSum(q, ks[..|ks| - 1], ids, c);
    }
  }

  /** All large enough subsets of the parties interpolate to the same group key, so the key
      that NewPublic computes from all shares is the one every signing set reproduces. */
  lemma GroupKeyFromAnySubset(q: Modulus, all: seq<ID>, ids: seq<ID>, shares: map<ID, Element>, c: seq<int>)
    requires IsPrime(q) && q > 65535 && IsPartySet(all) && IsPartySet(ids)
    requires Members(ids) <= Members(all) && |c| <= |ids| && OnPolynomial(q, all, shares, c)
    ensures Equal(q, InterpolatedKey(q, ids, shares), InterpolatedKey(q, all, shares))
  {
    assert forall id <- ids :: id in Members(ids);
    SortedSize(ids);
    SortedSize(all);
    SubsetSize(Members(ids), Members(all));
    InterpolatedKeyIsConstantTerm(q, ids, shares, c);
    InterpolatedKeyIsConstantTerm(q, all, shares, c);
  }

  /** NewPublic: the interpolated key makes the keys consistent. */
  lemma NewPublicConsistent(q: Modulus, ids: seq<ID>, shares: map<ID, Element>, threshold: nat, c: seq<int>)
    requires IsPrime(q) && q > 65535 && IsPartySet(ids) && shares.Keys == Members(ids)
    requires |c| == threshold + 1 <= |ids| && OnPolynomial(q, ids, shares, c)
    ensures ConsistentKeys(q, Public(ids, threshold, shares, InterpolatedKey(q, ids, shares)))
  {
    InterpolatedKeyIsConstantTerm(q, ids, shares, c);
    assert KeyPolynomial(q, Public(ids, threshold, shares, InterpolatedKey(q, ids, shares)), c);
  }

  lemma ConsistentSubsetKey(q: Modulus, pk: Public, ids: seq<ID>)
    requires IsPrime(q) && q > 65535 && ConsistentKeys(q, pk)
    requires IsPartySet(ids) && Members(ids) <= Members(pk.partyIDs) && |ids| > pk.threshold
    ensures Equal(q, InterpolatedKey(q, ids, pk.shares), pk.groupKey)
  {
    var c :| KeyPolynomial(q, pk, c);
    assert forall id <- ids :: id in Members(ids);
    InterpolatedKeyIsConstantTerm(q, ids, pk.shares, c);
  }

  // ---------------------------------------------------------------------------
  // Signing
  // ---------------------------------------------------------------------------

  /** ComputeChallenge: the hash of nonce, group key and message. */
  function Challenge(s: Suite, R: Element, groupKey: Element, message: Bytes): nat {
    s.uniform(s.sha512(s.EncodeEd25519(R) + s.EncodeEd25519(groupKey) + message))
  }

  /** PublicKey.Verify: [c](-A) + [S]B == R. */
  predicate Verify(s: Suite, groupKey: Element, message: Bytes, sig: Signature) {
    var c := Challenge(s, sig.R, groupKey, message);
    Equal(s.q, DoubleMult(c, Negate(groupKey), sig.S), sig.R)
  }

  function Factors(s: Suite, ids: seq<ID>, pre: map<ID, PreShare>, message: Bytes): map<ID, nat>
    requires forall id <- ids :: id in pre
  {
    map id | id in ids :: BindingFactor(s, id, ids, pre, message)
  }

  function NonceShares(ids: seq<ID>, pre: map<ID, PreShare>, factors: map<ID, nat>): map<ID, Element>
    requires forall id <- ids :: id in pre && id in factors
  {
    map id | id in ids :: NonceShare(factors[id], pre[id])
  }

  function AggregateNonce(ids: seq<ID>, nonceShares: map<ID, Element>): Element {
    Element(Sum(ids, Log(nonceShares)))
  }

  /** ShareVal */
  predicate ShareVal(q: Modulus, pk: Public, ids: seq<ID>, id: ID, nonceShare: Element, challenge: nat, share: nat)
    requires id in pk.shares
  {
    match LagrangeOf(q, id, ids)
    case None => false
    case Some(coef) =>
      Equal(q, DoubleMult(challenge, Negate(Mult(coef, pk.shares[id])), share), nonceShare)
  }

  /** The response every signer owes: r + c * coef * y, in logarithms. */
  function Response(q: Modulus, ids: seq<ID>, id: ID, share: Element, nonceShare: Element, challenge: nat): int {
    nonceShare.log + challenge * (Coefficient(q, id, ids) * share.log)
  }

  /** The share check accepts exactly the residue class of the response. */
  lemma ShareValExact(q: Modulus, pk: Public, ids: seq<ID>, id: ID, nonceShare: Element, challenge: nat, share: nat)
    requires id in pk.shares && id in ids && id != 0
    ensures ShareVal(q, pk, ids, id, nonceShare, challenge, share)
       <==> Cong(q, share, Response(q, ids, id, pk.shares[id], nonceShare, challenge))
  {
    var w := Coefficient(q, id, ids) * pk.shares[id].log;
    var cw := challenge * w;
    assert challenge * -w == -cw;
    MoveAcross(q, cw, share, nonceShare.log);
  }

  lemma MoveAcross(q: Modulus, m: int, a: int, b: int)
    ensures Cong(q, -m + a, b) <==> Cong(q, a, b + m)
  {
    if Cong(q, -m + a, b) {
      CongAdd(q, -m + a, b, m, m);
    }
    if Cong(q, a, b + m) {
      CongAdd(q, a, b + m, m, m);
    }
  }

  /** The check admits one canonical scalar only. */
  lemma ShareUnique(q: Modulus, pk: Public, ids: seq<ID>, id: ID, nonceShare: Element, challenge: nat, z: nat, z': nat)
    requires id in pk.shares && z < q && z' < q
    requires ShareVal(q, pk, ids, id, nonceShare, challenge, z) && ShareVal(q, pk, ids, id, nonceShare, challenge, z')
    ensures z == z'
  {
    ShareValExact(q, pk, ids, id, nonceShare, challenge, z);
    ShareValExact(q, pk, ids, id, nonceShare, challenge, z');
    CongSmall(q, z, z');
  }

  /** SignRound: the share of signer `id`, from its secret, its nonces and everybody's
      commitments. */
  function SignRound(s: Suite, pk: Public, id: ID, secret: nat, nonces: NonceState, ids: seq<ID>, pre: map<ID, PreShare>, message: Bytes): Option<nat>
    requires forall id <- ids :: id in pre
  {
    var factors := Factors(s, ids, pre, message);
    var R := AggregateNonce(ids, NonceShares(ids, pre, factors));
    var c := Challenge(s, R, pk.groupKey, message);
    match LagrangeOf(s.q, id, ids)
    case None => None
    case Some(coef) => Some(SignResponse(s.q, coef, secret, c, nonces, factors[id]))
  }

  /** d + e * rho + coef * secret * c, with the code's intermediate reductions. */
  function SignResponse(q: Modulus, coef: nat, secret: nat, c: nat, n: NonceState, rho: nat): (z: nat)
    ensures z < q
  {
    ((n.e * rho + coef * secret % q * c % q) % q + n.d) % q
  }

  lemma SignResponseCong(q: Modulus, coef: nat, secret: nat, c: nat, n: NonceState, rho: nat)
    ensures Cong(q, SignResponse(q, coef, secret, c, n, rho), rho * n.e + n.d + c * (coef * secret))
  {
    var a := coef * secret;
    CongMod(q, a);
    CongFactor(q, a % q, a, c);
    CongMod(q, a % q * c);
    CongAdd(q, n.e * rho, n.e * rho, a % q * c % q, a * c);
    CongMod(q, n.e * rho + a % q * c % q);
    CongAdd(q, (n.e * rho + a % q * c % q) % q, n.e * rho + a * c, n.d, n.d);
    CongMod(q, (n.e * rho + a % q * c % q) % q + n.d);
    assert n.e * rho + a * c + n.d == rho * n.e + n.d + c * a;
  }

  /** An honest share passes the check of the session built from the same commitments. */
  lemma HonestShareValid(s: Suite, pk: Public, id: ID, secret: nat, nonces: NonceState, ids: seq<ID>, pre: map<ID, PreShare>, message: Bytes)
    requires forall id <- ids :: id in pre
    requires id != 0 && id in ids && id in pk.shares
    requires pre[id] == Commit(nonces)
    requires Equal(s.q, pk.shares[id], BaseMult(secret))
    ensures
      var factors := Factors(s, ids, pre, message);
      var nonceShares := NonceShares(ids, pre, factors);
      var c := Challenge(s, AggregateNonce(ids, nonceShares), pk.groupKey, message);
      var z := SignRound(s, pk, id, secret, nonces, ids, pre, message);
      z.Some? && z.value < s.q && ShareVal(s.q, pk, ids, id, nonceShares[id], c, z.value)
  {
    var q := s.q;
    var factors := Factors(s, ids, pre, message);
    var nonceShares := NonceShares(ids, pre, factors);
    var c := Challenge(s, AggregateNonce(ids, nonceShares), pk.groupKey, message);
    var coef := Coefficient(q, id, ids);
    var z := SignResponse(q, coef, secret, c, nonces, factors[id]);
    SignResponseCong(q, coef, secret, c, nonces, factors[id]);
    ResponseOfSecret(q, coef, c, secret, pk.shares[id].log, nonceShares[id].log);
    ShareValExact(q, pk, ids, id, nonceShares[id], c, z);
  }

  lemma ResponseOfSecret(q: Modulus, coef: int, c: int, secret: int, y: int, r: int)
    requires Cong(q, y, secret)
    ensures Cong(q, r + c * (coef * secret), r + c * (coef * y))
  {
    CongScale(q, coef, y, secret);
    CongScale(q, c, coef * y, coef * secret);
    CongAdd(q, r, r, c * (coef * y), c * (coef * secret));
  }

  /** SignAgg: shares summed over a map in arbitrary order. */
  method SignAgg(q: Modulus, aggregateNonce: Element, sigShares: map<ID, nat>) returns (sig: Signature)
    ensures sig == Signature(aggregateNonce, ShareSum(q, sigShares))
  {
    var s := 0;
    var rest := sigShares;
    ghost var total := 0;
    while rest != map[]
      invariant total + MapSum(Widen(rest)) == MapSum(Widen(sigShares))
      invariant s == total % q
      decreases |rest|
    {
      var id :| id in rest;
      WidenTake(rest, id);
      ModAdd(q, total, rest[id]);
      s := (s + rest[id]) % q;
      total := total + rest[id];
      rest := rest - {id};
    }
    sig := Signature(aggregateNonce, s);
  }

  lemma WidenTake(m: map<ID, nat>, id: ID)
    requires id in m
    ensures MapSum(Widen(m)) == m[id] + MapSum(Widen(m - {id}))
    ensures |m - {id}| < |m|
  {
    MapSumTake(Widen(m), id);
    assert Widen(m) - {id} == Widen(m - {id});
    assert (m - {id}).Keys == m.Keys - {id};
  }

  function Widen(m: map<ID, nat>): map<nat, int> {
    map k | k in m :: m[k]
  }

  /** The sum of all shares, reduced. */
  ghost function ShareSum(q: Modulus, shares: map<ID, nat>): nat {
    MapSum(Widen(shares)) % q
  }

  lemma ShareSumEnumerated(q: Modulus, ids: seq<ID>, shares: map<ID, nat>)
    requires Sorted(ids) && shares.Keys == Members(ids)
    ensures ShareSum(q, shares) == Sum(ids, Value(shares)) % q
  {
    MapSumEnumerated(Widen(shares), ids, Value(shares));
  }

  /** Every signer's share passes the check. */
  predicate AllSharesValid(q: Modulus, pk: Public, ids: seq<ID>, nonceShares: map<ID, Element>, c: nat, shares: map<ID, nat>) {
    forall id <- ids :: id in pk.shares && id in nonceShares && id in shares
      && ShareVal(q, pk, ids, id, nonceShares[id], c, shares[id])
  }

  /** For any keys: an aggregate of checked shares verifies if and only if the challenge is
      zero or the signers' public shares interpolate to the group key. */
  lemma AggregateVerifiesExactly(s: Suite, pk: Public, ids: seq<ID>, nonceShares: map<ID, Element>, message: Bytes, shares: map<ID, nat>)
    requires IsPrime(s.q) && IsPartySet(ids) && shares.Keys == Members(ids)
    requires
      var c := Challenge(s, AggregateNonce(ids, nonceShares), pk.groupKey, message);
      AllSharesValid(s.q, pk, ids, nonceShares, c, shares)
    ensures
      var R := AggregateNonce(ids, nonceShares);
      var c := Challenge(s, R, pk.groupKey, message);
      Verify(s, pk.groupKey, message, Signature(R, ShareSum(s.q, shares)))
      <==> Cong(s.q, c, 0) || Equal(s.q, InterpolatedKey(s.q, ids, pk.shares), pk.groupKey)
  {
    var R := AggregateNonce(ids, nonceShares);
    var c := Challenge(s, R, pk.groupKey, message);
    AggregateEquation(s.q, pk, ids, nonceShares, c, shares);
    VerifyEquation(s, pk.groupKey, message, Signature(R, ShareSum(s.q, shares)));
  }

  lemma VerifyEquation(s: Suite, groupKey: Element, message: Bytes, sig: Signature)
    ensures var c := Challenge(s, sig.R, groupKey, message);
      Verify(s, groupKey, message, sig) <==> Cong(s.q, -(c * groupKey.log) + sig.S, sig.R.log)
  {
    var c := Challenge(s, sig.R, groupKey, message);
    assert c * -groupKey.log == -(c * groupKey.log);
  }

  lemma AggregateEquation(q: Modulus, pk: Public, ids: seq<ID>, nonceShares: map<ID, Element>, c: nat, shares: map<ID, nat>)
    requires IsPrime(q) && IsPartySet(ids) && shares.Keys == Members(ids)
    requires AllSharesValid(q, pk, ids, nonceShares, c, shares)
    ensures Cong(q, -(c * pk.groupKey.log) + ShareSum(q, shares), AggregateNonce(ids, nonceShares).log)
       <==> Cong(q, c, 0) || Equal(q, InterpolatedKey(q, ids, pk.shares), pk.groupKey)
  {
    SumOfResponses(q, pk, ids, nonceShares, c, shares);
    ShareSumEnumerated(q, ids, shares);
    var total := Sum(ids, Value(shares));
    CongMod(q, total);
    VerifyArithmetic(q, c, pk.groupKey.log, total % q, AggregateNonce(ids, nonceShares).log,
                     InterpolatedKey(q, ids, pk.shares).log);
  }

  /** The shares sum to r + c * y. */
  lemma SumOfResponses(q: Modulus, pk: Public, ids: seq<ID>, nonceShares: map<ID, Element>, c: nat, shares: map<ID, nat>)
    requires IsPartySet(ids) && AllSharesValid(q, pk, ids, nonceShares, c, shares)
    ensures Cong(q, Sum(ids, Value(shares)),
                 AggregateNonce(ids, nonceShares).log + c * InterpolatedKey(q, ids, pk.shares).log)
  {
    var f, r, y := Value(shares), Log(nonceShares), KeyTerms(q, ids, pk.shares);
    var h := (k: nat) => r(k) + c * y(k);
    forall i | 0 <= i < |ids|
      ensures Cong(q, f(ids[i]), h(ids[i]))
    {
      ShareValExact(q, pk, ids, ids[i], nonceShares[ids[i]], c, shares[ids[i]]);
    }
    SumCong(q, ids, f, h);
    SumLinear(ids, r, y, h, c);
  }

  lemma VerifyArithmetic(q: Modulus, c: int, a: int, S: int, r: int, y: int)
    requires IsPrime(q) && Cong(q, S, r + c * y)
    ensures Cong(q, -(c * a) + S, r) <==> Cong(q, c, 0) || Cong(q, y, a)
  {
    MoveAcross(q, c * a, S, r);
    if Cong(q, S, r + c * a) {
      CongAdd(q, r + c * y, r + c * a, r, r);
      assert (r + c * y) - r == c * y && (r + c * a) - r == c * a;
      if !Cong(q, c, 0) {
        Cancel(q, c, y, a);
      }
    }
    if Cong(q, y, a) {
      CongScale(q, c, y, a);
      CongAdd(q, r, r, c * y, c * a);
    }
    if Cong(q, c, 0) {
      CongFactor(q, c, 0, y);
      CongFactor(q, c, 0, a);
      assert 0 * y == 0 && 0 * a == 0;
      CongAdd(q, r, r, c * y, c * a);
    }
  }

  /** With consistent keys and more than threshold signers, checked shares always aggregate to
      a valid signature. */
  lemma AggregateVerifies(s: Suite, pk: Public, ids: seq<ID>, nonceShares: map<ID, Element>, message: Bytes, shares: map<ID, nat>)
    requires IsPrime(s.q) && s.q > 65535 && ConsistentKeys(s.q, pk)
    requires IsPartySet(ids) && Members(ids) <= Members(pk.partyIDs) && |ids| > pk.threshold
    requires shares.Keys == Members(ids)
    requires
      var c := Challenge(s, AggregateNonce(ids, nonceShares), pk.groupKey, message);
      AllSharesValid(s.q, pk, ids, nonceShares, c, shares)
    ensures Verify(s, pk.groupKey, message, Signature(AggregateNonce(ids, nonceShares), ShareSum(s.q, shares)))
  {
    ConsistentSubsetKey(s.q, pk, ids);
    AggregateVerifiesExactly(s, pk, ids, nonceShares, message, shares);
  }
}
