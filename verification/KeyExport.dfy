/** From key generation to signing: NewPublic, OutputToFROST, and a ChillDKG session whose keys
    are used by a ROAST signing run. */
module KeyExport {
  import opened PrimeField
  import opened Interpolation
  import opened Sums
  import opened Group
  import opened Party
  import opened Vss
  import opened Certeq
  import opened ChillDkg
  import opened ChillDkgSession
  import F = Frost
  import G = SignRounds
  import P = SimplPedPop
  import R = Roast
  import S = RoastSystem
  import Sim = RoastSimulation

  function PublicOf(q: Modulus, shares: map<ID, Element>, threshold: ID, ids: seq<ID>): F.Public {
    F.Public(ids, threshold, shares, F.InterpolatedKey(q, ids, shares))
  }

  lemma SortedIsPartySet(ids: seq<ID>, keys: set<ID>)
    requires Sorted(ids) && Members(ids) == keys && 0 !in keys
    ensures IsPartySet(ids) && forall id <- ids :: id in keys
  {
  }

  lemma NoMembers()
    ensures Members([]) == {}
  {
  }

  lemma OneMoreMember(ids: seq<ID>, id: ID)
    ensures Members(ids + [id]) == Members(ids) + {id}
  {
  }

  /** The keys of the map, in whatever order, sorted. */
  method CollectIDs(shares: map<ID, Element>) returns (ids: seq<ID>)
    ensures ids == SortedOf(shares.Keys)
  {
    hide Nondecreasing;
    hide SortedOf;
    hide Members;
    var list: seq<ID> := [];
    var rest := shares.Keys;
    NoMembers();
    while rest != {}
      invariant rest <= shares.Keys && Members(list) == shares.Keys - rest && |Members(list)| == |list|
      decreases |rest|
    {
      var id :| id in rest;
      OneMoreMember(list, id);
      list := list + [id];
      rest := rest - {id};
    }
    ids := NewIDSlice(list);
    SortedCopy(list, ids);
  }

  /** NewPublic refuses thresholds for which there are not enough parties; the sum wraps at 16
      bits. */
  method NewPublic(q: Modulus, shares: map<ID, Element>, threshold: ID) returns (r: Option<F.Public>)
    requires IsPrime(q) && q > 65535 && 0 !in shares
    ensures r.None? <==> (threshold + 1) % 0x1_0000 > |shares|
    ensures r.Some? ==> r.value == PublicOf(q, shares, threshold, SortedOf(shares.Keys))
  {
    var ids := CollectIDs(shares);
    SortedIsPartySet(ids, shares.Keys);
    PartySetSize(ids);
    var key := F.ComputeGroupKey(q, ids, shares);
    if (threshold + 1) % 0x1_0000 > |ids| {
      return None;
    }
    r := Some(F.Public(ids, threshold, shares, key));
  }

  /** The identifiers 1 to n. */
  function PartyRange(n: nat): (ids: set<ID>)
    requires n <= 65535
    ensures |ids| == n && forall id: ID :: id in ids <==> 1 <= id <= n
  {
    if n == 0 then {} else PartyRange(n - 1) + {n}
  }

  function FrostSecrets(outputs: seq<P.DKGOutput>, n: nat): (m: map<ID, nat>)
    requires n <= |outputs| && n <= 65535 && forall i :: 0 <= i < |outputs| ==> outputs[i].secShare.Some?
    ensures m.Keys == PartyRange(n)
  {
    map id | id in PartyRange(n) :: outputs[id - 1].secShare.value
  }

  function FrostShares(pubShares: seq<Element>, n: nat): (m: map<ID, Element>)
    requires n <= |pubShares| && n <= 65535
    ensures m.Keys == PartyRange(n)
  {
    map id | id in PartyRange(n) :: pubShares[id - 1]
  }

  /** OutputToFROST; identifiers are the positions counted from one. */
  method OutputToFROST(q: Modulus, outputs: seq<P.DKGOutput>, params: SessionParams)
    returns (r: Option<(F.Public, map<ID, nat>)>)
    requires IsPrime(q) && q > 65535 && 1 <= |outputs| <= 65535 && |outputs[0].pubShares| >= |outputs|
    requires forall i :: 0 <= i < |outputs| ==> outputs[i].secShare.Some?
    ensures r.None? <==> (params.threshold + 1) % 0x1_0000 > |outputs|
    ensures r.Some? ==>
      && r.value.0 == PublicOf(q, FrostShares(outputs[0].pubShares, |outputs|), params.threshold,
                               SortedOf(FrostShares(outputs[0].pubShares, |outputs|).Keys))
      && r.value.1 == FrostSecrets(outputs, |outputs|)
  {
    hide PartyRange;
    hide FrostShares;
    hide FrostSecrets;
    hide PublicOf;
    var n := |outputs|;
    var shares := CollectShares(outputs[0].pubShares, n);
    var pub := NewPublic(q, shares, params.threshold);
    if pub.None? {
      return None;
    }
    var secrets := CollectSecrets(outputs, n);
    r := Some((pub.value, secrets));
  }

  method CollectShares(pubShares: seq<Element>, n: nat) returns (shares: map<ID, Element>)
    requires n <= |pubShares| && n <= 65535
    ensures shares == FrostShares(pubShares, n)
  {
    hide PartyRange;
    shares := map[];
    for i := 0 to n
      invariant shares == FrostShares(pubShares, i)
    {
      shares := shares[i + 1 := pubShares[i]];
    }
  }

  method CollectSecrets(outputs: seq<P.DKGOutput>, n: nat) returns (secrets: map<ID, nat>)
    requires n <= |outputs| && n <= 65535 && forall i :: 0 <= i < |outputs| ==> outputs[i].secShare.Some?
    ensures secrets == FrostSecrets(outputs, n)
  {
    hide PartyRange;
    secrets := map[];
    for i := 0 to n
      invariant secrets == FrostSecrets(outputs, i)
    {
      secrets := secrets[i + 1 := outputs[i].secShare.value];
    }
  }

  // ---------------------------------------------------------------------------
  // Keys of a ChillDKG session
  // ---------------------------------------------------------------------------

  lemma {:induction false} EvalPadded(c: seq<int>, x: int)
    ensures Eval(c + [0], x) == Eval(c, x)
  {
    if c != [] {
      assert (c + [0])[1..] == c[1..] + [0];
      EvalPadded(c[1..], x);
    }
  }

  /** The exported keys lie on the joint polynomial, which has room for one more coefficient
      than key generation used. */
  lemma ExportConsistent(s: Suite, x: Inputs)
    requires x.Honest(s) && x.T() < x.N() <= 65535
    ensures
      var shares := FrostShares(PubSharesOf(P.FromLogs(JointPoly(s, x)), x.N()), x.N());
      var pk := PublicOf(s.q, shares, x.params.threshold, SortedOf(shares.Keys));
      && F.ConsistentKeys(s.q, pk) && |pk.partyIDs| == x.N()
      && Equal(s.q, pk.groupKey, Element(JointPoly(s, x)[0]))
  {
    var c := JointPoly(s, x);
    assert IsPrime(s.q) && s.q > 65535 && x.T() >= 1;
    hide Inputs.Honest;
    hide JointPoly;
    ExportPolynomial(s.q, c, x.params.threshold, x.N());
  }

  lemma ExportPolynomial(q: Modulus, c: seq<int>, threshold: ID, n: nat)
    requires IsPrime(q) && q > 65535 && 1 <= |c| == threshold < n <= 65535
    ensures
      var shares := FrostShares(PubSharesOf(P.FromLogs(c), n), n);
      var pk := PublicOf(q, shares, threshold, SortedOf(shares.Keys));
      && F.ConsistentKeys(q, pk) && |pk.partyIDs| == n
      && Equal(q, pk.groupKey, Element(c[0]))
  {
    hide PartyRange;
    hide SortedOf;
    hide Sorted;
    hide F.InterpolatedKey;
    var shares := FrostShares(PubSharesOf(P.FromLogs(c), n), n);
    var ids := SortedOf(shares.Keys);
    SortedIsPartySet(ids, shares.Keys);
    ExportOnPolynomial(q, c, n, ids);
    hide FrostShares;
    F.NewPublicConsistent(q, ids, shares, threshold, c + [0]);
    F.InterpolatedKeyIsConstantTerm(q, ids, shares, c + [0]);
    EvalPadded(c, 0);
    assert Eval(c, 0) == c[0];
    hide F.ConsistentKeys;
  }

  lemma ExportOnPolynomial(q: Modulus, c: seq<int>, n: nat, ids: seq<ID>)
    requires n <= 65535 && forall id <- ids :: id in PartyRange(n)
    ensures F.OnPolynomial(q, ids, FrostShares(PubSharesOf(P.FromLogs(c), n), n), c + [0])
  {
    hide FrostShares;
    hide PartyRange;
    hide Eval;
    hide PubSharesOf;
    var shares := FrostShares(PubSharesOf(P.FromLogs(c), n), n);
    forall id <- ids
      ensures id in shares && Cong(q, shares[id].log, Eval(c + [0], id))
    {
      ExportPoint(c, n, id);
    }
  }

  lemma ExportPoint(c: seq<int>, n: nat, id: ID)
    requires n <= 65535 && id in PartyRange(n)
    ensures FrostShares(PubSharesOf(P.FromLogs(c), n), n)[id].log == Eval(c + [0], id)
  {
    hide PartyRange;
    EvalPadded(c, id);
    hide Eval;
    assert Point(id - 1) == id;
  }

  /** Keys made by ChillDKG need only t signers, though they are exported with threshold t: any
      valid job with at least t of them passes the final check of the round-based protocol. */
  lemma ExportedSignersPass(s: Suite, x: Inputs, job: G.Job, r: G.Round, pre: map<ID, F.PreShare>)
    requires x.Honest(s) && x.T() < x.N() <= 65535 && job.suite == s
    requires
      var shares := FrostShares(PubSharesOf(P.FromLogs(JointPoly(s, x)), x.N()), x.N());
      job.pk == PublicOf(s.q, shares, x.params.threshold, SortedOf(shares.Keys))
    requires job.Valid() && |job.ids| >= x.T() && G.Sharing(job, r, pre, Members(job.ids))
    ensures G.Aggregated(s, r) == Some(G.AgreedSignature(job, pre))
    ensures F.Verify(s, job.pk.groupKey, job.message, G.AgreedSignature(job, pre))
  {
    var c := JointPoly(s, x);
    var shares := FrostShares(PubSharesOf(P.FromLogs(c), x.N()), x.N());
    PrimeOrder(s);
    ExportConsistent(s, x);
    hide Inputs.Honest;
    hide JointPoly;
    hide F.ConsistentKeys;
    hide PubSharesOf;
    hide F.InterpolatedKey;
    hide F.Verify;
    hide G.Sharing;
    hide G.AgreedSignature;
    hide SortedOf;
    ExportOnJoint(s.q, c, x.N(), job.ids);
    hide FrostShares;
    F.InterpolatedKeyIsConstantTerm(s.q, job.ids, shares, c);
    assert Eval(c, 0) == c[0];
    G.FinalCheckExactly(job, r, pre);
    G.AggregateIsAgreed(job, r, pre);
    SharedFields(job, r, pre);
    Passed(job, r, pre);
  }

  lemma ExportOnJoint(q: Modulus, c: seq<int>, n: nat, ids: seq<ID>)
    requires n <= 65535 && forall id <- ids :: id in FrostShares(PubSharesOf(P.FromLogs(c), n), n)
    ensures F.OnPolynomial(q, ids, FrostShares(PubSharesOf(P.FromLogs(c), n), n), c)
  {
    hide FrostShares;
    hide PartyRange;
    hide Eval;
    hide PubSharesOf;
    forall id <- ids
      ensures FrostShares(PubSharesOf(P.FromLogs(c), n), n)[id].log == Eval(c, id)
    {
      ExportPoint(c, n, id);
      EvalPadded(c, id);
    }
  }

  lemma SharedFields(job: G.Job, r: G.Round, pre: map<ID, F.PreShare>)
    requires G.Sharing(job, r, pre, Members(job.ids))
    ensures pre.Keys == Members(job.ids) && r.groupKey == job.pk.groupKey && r.message == job.message
  {
    hide G.Derived;
    hide G.Answered;
  }

  lemma Passed(job: G.Job, r: G.Round, pre: map<ID, F.PreShare>)
    requires pre.Keys == Members(job.ids) && r.groupKey == job.pk.groupKey && r.message == job.message
    requires F.Signature(r.R, F.ShareSum(job.suite.q, G.Zs(r.parties))) == G.AgreedSignature(job, pre)
    requires G.Aggregated(job.suite, r).Some?
    ensures G.Aggregated(job.suite, r) == Some(G.AgreedSignature(job, pre))
    ensures F.Verify(job.suite, job.pk.groupKey, job.message, G.AgreedSignature(job, pre))
  {
    hide F.Verify;
    hide G.AgreedSignature;
  }

  /** The secret share of every participant belongs to its exported public share. */
  lemma ExportSecrets(s: Suite, x: Inputs, id: ID)
    requires x.Honest(s) && 1 <= id <= x.N() <= 65535
    ensures Output(s, x, id - 1).secShare.Some?
    ensures Equal(s.q, FrostShares(PubSharesOf(P.FromLogs(JointPoly(s, x)), x.N()), x.N())[id], BaseMult(Output(s, x, id - 1).secShare.value))
  {
    hide Inputs.Honest;
    hide JointPoly;
    CongMod(s.q, Eval(JointPoly(s, x), Point(id - 1)));
  }

  /** Verification depends on the group key as an element only. */
  lemma VerifyUnderEqualKey(s: Suite, key: Element, key': Element, message: Bytes, sig: F.Signature)
    requires Equal(s.q, key, key') && F.Verify(s, key, message, sig)
    ensures F.Verify(s, key', message, sig)
  {
    var c := F.Challenge(s, sig.R, key, message);
    assert F.Challenge(s, sig.R, key', message) == c;
    hide F.Challenge;
    hide Cong;
    SameKeyEquation(s.q, key, key', c, sig.S, sig.R);
  }

  function Without(secrets: map<ID, nat>, silent: set<ID>): map<ID, nat> {
    map id | id in secrets && id !in silent :: secrets[id]
  }

  /** A whole session and its export, without the secrets of the silent signers. */
  method GenerateKeys(s: Suite, x: Inputs, silent: set<ID>, message: Bytes) returns (env: S.Env)
    requires s.Valid() && x.WellFormed() && x.Honest(s) && Proper(s, x) && x.T() < x.N() <= 65535 && |silent| < x.N() - x.T()
    ensures env.Valid() && |env.Honest()| >= env.cfg.t == x.T() + 1 && env.cfg.N() == x.N() && env.cfg.Parties() == PartyRange(x.N())
    ensures env.cfg.suite == s && env.cfg.message == message
    ensures Equal(s.q, env.cfg.pk.groupKey, Output(s, x, 0).thresholdPubkey)
  {
    hide Suite.Valid;
    hide ValidParams;
    hide Proper;
    hide Output;
    hide PartyRange;
    hide FrostSecrets;
    hide SortedOf;
    hide PublicOf;
    hide FrostShares;
    hide S.Env.Valid;
    hide Equal;
    hide Without;
    PrimeOrder(s);
    var dkg, _ := SimulateSession(s, x);
    var outputs := dkg.value.0;
    OutputShape(s, x);
    var exported := OutputToFROST(s.q, outputs, x.params);
    ThresholdFits(x.T(), x.N());
    assert exported.Some?;
    var (pk, secrets) := exported.value;
    secrets := Without(secrets, silent);
    env := S.Env(R.Config(s, pk, x.T() + 1, message), secrets);
    SigningReady(s, x, outputs, silent, env);
  }

  /** Keys generated by ChillDKG drive ROAST: with at most n - t - 1 silent signers the run
      always ends with a signature that verifies under the threshold key of the session. */
  method GenerateAndSign(s: Suite, x: Inputs, silent: set<ID>, message: Bytes, nonces: map<ID, F.NonceState>, supply: nat -> F.NonceState)
    returns (sig: Option<F.Signature>, sessions: nat)
    requires s.Valid() && x.WellFormed() && x.Honest(s) && Proper(s, x) && x.T() < x.N() <= 65535
    requires |silent| < x.N() - x.T() && PartyRange(x.N()) <= nonces.Keys
    ensures sig.Some? && F.Verify(s, Output(s, x, 0).thresholdPubkey, message, sig.value)
    ensures 1 <= sessions <= x.N() - x.T()
  {
    hide Suite.Valid;
    hide Inputs.Honest;
    hide Proper;
    hide Output;
    hide PartyRange;
    hide F.Verify;
    hide S.Env.Valid;
    hide Equal;
    var env := GenerateKeys(s, x, silent, message);
    sig, sessions := Sim.Simulate(env, nonces, supply);
    VerifyUnderEqualKey(s, env.cfg.pk.groupKey, Output(s, x, 0).thresholdPubkey, message, sig.value);
  }

  lemma ThresholdFits(t: nat, n: nat)
    requires t < n <= 65535
    ensures (t + 1) % 0x1_0000 == t + 1
  {
  }

  lemma PrimeOrder(s: Suite)
    requires s.Valid()
    ensures IsPrime(s.q) && s.q > 65535
  {
  }

  lemma OutputShape(s: Suite, x: Inputs)
    requires x.Honest(s)
    ensures forall i :: 0 <= i < x.N() ==> Output(s, x, i).secShare.Some? && |Output(s, x, i).pubShares| == x.N()
  {
    hide Inputs.Honest;
    hide JointPoly;
  }

  /** The exported keys, without the silent signers' secrets, are a signing system with enough
      honest signers. */
  lemma SigningReady(s: Suite, x: Inputs, outputs: seq<P.DKGOutput>, silent: set<ID>, env: S.Env)
    requires x.Honest(s) && x.T() < x.N() <= 65535 && |silent| < x.N() - x.T()
    requires |outputs| == x.N() && forall i :: 0 <= i < x.N() ==> outputs[i] == Output(s, x, i)
    requires env.cfg.suite == s && env.cfg.t == x.T() + 1 && |outputs[0].pubShares| == x.N()
    requires
      var shares := FrostShares(outputs[0].pubShares, x.N());
      env.cfg.pk == PublicOf(s.q, shares, x.params.threshold, SortedOf(shares.Keys))
    requires forall i :: 0 <= i < x.N() ==> outputs[i].secShare.Some?
    requires env.secrets == Without(FrostSecrets(outputs, x.N()), silent)
    ensures env.Valid() && |env.Honest()| >= env.cfg.t && env.cfg.N() == x.N() && env.cfg.Parties() == PartyRange(x.N())
    ensures Equal(s.q, env.cfg.pk.groupKey, Output(s, x, 0).thresholdPubkey)
  {
    hide Inputs.Honest;
    hide Suite.Valid;
    hide JointPoly;
    hide F.ConsistentKeys;
    hide PubSharesOf;
    hide F.InterpolatedKey;
    hide PartyRange;
    hide SortedOf;
    hide Sorted;
    HonestIsValid(s, x);
    PrimeOrder(s);
    OutputsAre(s, x);
    ExportConsistent(s, x);
    SecretsMatch(s, x, outputs, silent, env);
    EnoughSigners(x.N(), silent, env.secrets.Keys);
    hide FrostShares;
    hide FrostSecrets;
    hide Without;
    hide Output;
    EnvValid(env);
  }

  lemma HonestIsValid(s: Suite, x: Inputs)
    requires x.Honest(s)
    ensures s.Valid()
  {
  }

  lemma OutputsAre(s: Suite, x: Inputs)
    requires x.Honest(s)
    ensures Output(s, x, 0).pubShares == PubSharesOf(P.FromLogs(JointPoly(s, x)), x.N())
    ensures Output(s, x, 0).thresholdPubkey == Element(JointPoly(s, x)[0])
  {
    hide Inputs.Honest;
    hide JointPoly;
    hide PubSharesOf;
  }

  lemma SecretsMatch(s: Suite, x: Inputs, outputs: seq<P.DKGOutput>, silent: set<ID>, env: S.Env)
    requires x.Honest(s) && x.N() <= 65535
    requires |outputs| == x.N() && forall i :: 0 <= i < x.N() ==> outputs[i] == Output(s, x, i)
    requires env.cfg.pk.shares == FrostShares(PubSharesOf(P.FromLogs(JointPoly(s, x)), x.N()), x.N())
    requires forall i :: 0 <= i < x.N() ==> outputs[i].secShare.Some?
    requires env.secrets == Without(FrostSecrets(outputs, x.N()), silent)
    ensures env.secrets.Keys == PartyRange(x.N()) - silent
    ensures forall id <- env.secrets :: id in env.cfg.pk.shares && Equal(s.q, env.cfg.pk.shares[id], BaseMult(env.secrets[id]))
  {
    hide Inputs.Honest;
    hide JointPoly;
    hide PubSharesOf;
    hide PartyRange;
    hide Output;
    hide Equal;
    forall id <- env.secrets
      ensures id in env.cfg.pk.shares && Equal(s.q, env.cfg.pk.shares[id], BaseMult(env.secrets[id]))
    {
      assert outputs[id - 1] == Output(s, x, id - 1);
      ExportSecrets(s, x, id);
    }
  }

  lemma EnoughSigners(n: nat, silent: set<ID>, signers: set<ID>)
    requires n <= 65535 && signers == PartyRange(n) - silent
    ensures |signers| >= n - |silent|
  {
  }

  lemma EnvValid(env: S.Env)
    requires env.cfg.Valid()
    requires forall id <- env.secrets :: id in env.cfg.pk.shares && Equal(env.cfg.suite.q, env.cfg.pk.shares[id], BaseMult(env.secrets[id]))
    ensures env.Valid()
  {
  }
}
