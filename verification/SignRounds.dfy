/** The round-based FROST signer: the data of one signing job and what its three rounds do to
    it. Proved: the share of round 1 is the ROAST share, the check of round 2 is the ROAST
    check, and whoever passes round 2 holds one signature determined by the keys, the message
    and the commitments alone. */
module SignRounds {
  import opened PrimeField
  import opened Interpolation
  import opened Sums
  import opened Group
  import opened Party
  import opened Frost

  /** The inputs of a signing job. */
  datatype Job = Job(suite: Suite, pk: Public, ids: seq<ID>, self: ID, secret: nat, message: Bytes) {
    /** A set of parties that share the key, among them the owner of the secret share. */
    ghost predicate Valid() {
      && IsPrime(suite.q) && suite.q > 65535
      && IsPartySet(ids) && self in ids && forall id <- ids :: id in pk.shares
    }

    /** The secret share belongs to the public share. */
    ghost predicate OwnsShare() {
      self in pk.shares && Equal(suite.q, pk.shares[self], BaseMult(secret))
    }
  }

  datatype Cosigner = Cosigner(public: Element, D: Element, E: Element, R: Element, rho: nat, z: nat)

  datatype Round = Round(
    self: ID, ids: seq<ID>, message: Bytes, groupKey: Element,
    parties: map<ID, Cosigner>,
    secret: nat, d: nat, e: nat, C: nat, R: Element)

  // ---------------------------------------------------------------------------
  // IDSlice
  // ---------------------------------------------------------------------------

  /** Contains: binary search for the first identifier that is not smaller. */
  method Contains(ids: seq<ID>, id: ID) returns (found: bool)
    requires Sorted(ids)
    ensures found <==> id in ids
  {
    var lo, hi := 0, |ids|;
    while lo < hi
      invariant 0 <= lo <= hi <= |ids|
      invariant forall k :: 0 <= k < lo ==> ids[k] < id
      invariant forall k :: hi <= k < |ids| ==> ids[k] >= id
    {
      var mid := (lo + hi) / 2;
      if ids[mid] >= id {
        hi := mid;
      } else {
        lo := mid + 1;
      }
    }
    found := lo < |ids| && ids[lo] == id;
  }

  method IsSubsetOf(ids: seq<ID>, o: seq<ID>) returns (yes: bool)
    requires Sorted(o)
    ensures yes <==> forall id <- ids :: id in o
  {
    for i := 0 to |ids|
      invariant forall k :: 0 <= k < i ==> ids[k] in o
    {
      var found := Contains(o, ids[i]);
      if !found {
        return false;
      }
    }
    yes := true;
  }

  // ---------------------------------------------------------------------------
  // NewRound
  // ---------------------------------------------------------------------------

  function NewCosigner(q: Modulus, pk: Public, ids: seq<ID>, id: ID): Cosigner
    requires id in pk.shares
  {
    Cosigner(Mult(Coefficient(q, id, ids), pk.shares[id]), Zero(), Zero(), Zero(), 0, 0)
  }

  /** The data of round 0. */
  function Fresh(job: Job): Round
    requires forall id <- job.ids :: id in job.pk.shares
  {
    Round(job.self, job.ids, job.message, job.pk.groupKey,
          map id | id in job.ids :: NewCosigner(job.suite.q, job.pk, job.ids, id),
          Coefficient(job.suite.q, job.self, job.ids) * job.secret % job.suite.q, 0, 0, 0, Zero())
  }

  /** NewRound refuses a job exactly when it is not valid. */
  method NewRound(job: Job) returns (r: Option<Round>)
    requires IsPrime(job.suite.q) && job.suite.q > 65535
    requires Sorted(job.ids) && Sorted(job.pk.partyIDs) && job.pk.shares.Keys == Members(job.pk.partyIDs)
    ensures r.Some? <==> job.Valid()
    ensures r.Some? ==> r.value == Fresh(job)
  {
    hide IsPrime;
    hide Coefficient;
    hide Sorted;
    var q, ids := job.suite.q, job.ids;
    assert forall id :: id in job.pk.partyIDs <==> id in job.pk.shares.Keys;
    var own := Contains(ids, job.self);
    if !own {
      return None;
    }
    var subset := IsSubsetOf(ids, job.pk.partyIDs);
    if !subset {
      return None;
    }
    var parties: map<ID, Cosigner> := map[];
    for i := 0 to |ids|
      invariant forall k :: 0 <= k < i ==> ids[k] != 0
      invariant parties == map id | id in ids[..i] :: NewCosigner(q, job.pk, ids, id)
    {
      var id := ids[i];
      if id == 0 {
        return None;
      }
      var lagrange := Lagrange(q, id, ids);
      TakeSnoc(ids, i);
      parties := parties[id := Cosigner(Mult(lagrange.value, job.pk.shares[id]), Zero(), Zero(), Zero(), 0, 0)];
    }
    assert ids[..|ids|] == ids;
    var lagrange := Lagrange(q, job.self, ids);
    r := Some(Round(job.self, ids, job.message, job.pk.groupKey, parties, lagrange.value * job.secret % q, 0, 0, 0, Zero()));
  }

  // ---------------------------------------------------------------------------
  // The rounds
  // ---------------------------------------------------------------------------

  /** The commitments a party holds. */
  function View(parties: map<ID, Cosigner>): map<ID, PreShare> {
    map id | id in parties :: PreShare(parties[id].D, parties[id].E)
  }

  function Zs(parties: map<ID, Cosigner>): map<ID, nat> {
    map id | id in parties :: parties[id].z
  }

  /** Round 0 samples the nonces. */
  function WithNonces(r: Round, n: NonceState): Round
    requires r.self in r.parties
  {
    r.(d := n.d, e := n.e, parties := r.parties[r.self := r.parties[r.self].(D := Commit(n).D, E := Commit(n).E)])
  }

  /** Round 1 stores a co-signer's commitments, unless one is the identity. */
  function WithCommitment(q: Modulus, r: Round, id: ID, pre: PreShare): Option<Round>
    requires id in r.parties
  {
    if Equal(q, pre.D, Zero()) || Equal(q, pre.E, Zero()) then None
    else Some(r.(parties := r.parties[id := r.parties[id].(D := pre.D, E := pre.E)]))
  }

  /** The own share: z = d + e * rho + secret * C. */
  function OwnShare(q: Modulus, r: Round, rho: nat, C: nat): nat {
    ((r.e * rho + r.secret * C % q) % q + r.d) % q
  }

  /** rho_i and R_i = D_i + [rho_i]E_i for every party. */
  function Bound(parties: map<ID, Cosigner>, factors: map<ID, nat>): (out: map<ID, Cosigner>)
    requires factors.Keys == parties.Keys
    ensures out.Keys == parties.Keys
  {
    map id | id in parties :: BoundOne(parties[id], factors[id])
  }

  function BoundOne(p: Cosigner, rho: nat): Cosigner {
    p.(rho := rho, R := NonceShare(rho, PreShare(p.D, p.E)))
  }

  function NonceLogs(parties: map<ID, Cosigner>): map<nat, int> {
    map id: nat | id in parties :: parties[id].R.log
  }

  /** The binding factors for the commitments in pre. */
  function RoundFactors(s: Suite, ids: seq<ID>, pre: map<ID, PreShare>, message: Bytes): (f: map<ID, nat>)
    requires pre.Keys == Members(ids)
    ensures f.Keys == Members(ids)
  {
    var f := Factors(s, ids, pre, message);
    assert f.Keys == Members(ids);
    f
  }

  function RoundNonces(s: Suite, ids: seq<ID>, pre: map<ID, PreShare>, message: Bytes): (m: map<ID, Element>)
    requires pre.Keys == Members(ids)
    ensures m.Keys == Members(ids)
  {
    var m := NonceShares(ids, pre, RoundFactors(s, ids, pre, message));
    assert m.Keys == Members(ids);
    m
  }

  function RoundR(s: Suite, ids: seq<ID>, pre: map<ID, PreShare>, message: Bytes): Element
    requires pre.Keys == Members(ids)
  {
    AggregateNonce(ids, RoundNonces(s, ids, pre, message))
  }

  /** Round 1 computes binding factors, nonce, challenge and the own share. */
  function WithShare(s: Suite, r: Round): Round
    requires r.parties.Keys == Members(r.ids) && r.self in r.parties
  {
    var factors := RoundFactors(s, r.ids, View(r.parties), r.message);
    var R := RoundR(s, r.ids, View(r.parties), r.message);
    var C := Challenge(s, R, r.groupKey, r.message);
    var parties := Bound(r.parties, factors);
    r.(R := R, C := C, parties := parties[r.self := parties[r.self].(z := OwnShare(s.q, r, factors[r.self], C))])
  }

  /** Round 2 checks and stores a co-signer's share. */
  function WithResponse(q: Modulus, r: Round, id: ID, z: nat): Option<Round>
    requires id in r.parties
  {
    if Equal(q, DoubleMult(r.C, Negate(r.parties[id].public), z), r.parties[id].R)
    then Some(r.(parties := r.parties[id := r.parties[id].(z := z)]))
    else None
  }

  /** The loop over the parties, in any order. */
  method NonceLoop(parties: map<ID, Cosigner>, factors: map<ID, nat>) returns (out: map<ID, Cosigner>, R: Element)
    requires factors.Keys == parties.Keys
    ensures out == Bound(parties, factors)
    ensures R == Element(MapSum(NonceLogs(out)))
  {
    hide NonceShare;
    hide BoundOne;
    hide NonceLogs;
    var rest := parties.Keys;
    out, R := map[], Zero();
    NoLogs();
    while rest != {}
      invariant rest <= parties.Keys && out.Keys == parties.Keys - rest
      invariant forall id :: id in out ==> out[id] == BoundOne(parties[id], factors[id])
      invariant R == Element(MapSum(NonceLogs(out)))
      decreases |rest|
    {
      var id :| id in rest;
      var p := BoundOne(parties[id], factors[id]);
      AddLog(out, id, p);
      R := Add(R, p.R);
      out := out[id := p];
      rest := rest - {id};
    }
    assert out == Bound(parties, factors);
  }

  lemma NoLogs()
    ensures MapSum(NonceLogs(map[])) == 0
  {
  }

  lemma AddLog(out: map<ID, Cosigner>, id: ID, p: Cosigner)
    requires id !in out
    ensures MapSum(NonceLogs(out[id := p])) == MapSum(NonceLogs(out)) + p.R.log
  {
    MapSumTake(NonceLogs(out[id := p]), id);
    assert NonceLogs(out[id := p]) - {id} == NonceLogs(out);
  }

  /** The sum does not depend on the order. */
  lemma NonceSum(s: Suite, r: Round)
    requires Sorted(r.ids) && r.parties.Keys == Members(r.ids)
    ensures
      var pre := View(r.parties);
      Element(MapSum(NonceLogs(Bound(r.parties, RoundFactors(s, r.ids, pre, r.message))))) == RoundR(s, r.ids, pre, r.message)
  {
    hide NonceShare;
    hide RoundFactors;
    var pre := View(r.parties);
    MapSumEnumerated(NonceLogs(Bound(r.parties, RoundFactors(s, r.ids, pre, r.message))), r.ids, Log(RoundNonces(s, r.ids, pre, r.message)));
  }

  /** GenerateMessages of round 1. */
  method GenerateShare(s: Suite, r: Round) returns (r': Round)
    requires IsPartySet(r.ids) && r.parties.Keys == Members(r.ids) && r.self in r.parties
    ensures r' == WithShare(s, r)
  {
    hide Factors;
    hide Sorted;
    hide Bound;
    hide RoundR;
    hide NonceLogs;
    var factors := ComputeBindingFactors(s, r.self, r.ids, View(r.parties), r.message);
    assert factors == RoundFactors(s, r.ids, View(r.parties), r.message);
    var parties, R := NonceLoop(r.parties, factors);
    NonceSum(s, r);
    hide RoundFactors;
    var C := Challenge(s, R, r.groupKey, r.message);
    var z := OwnShare(s.q, r, factors[r.self], C);
    r' := r.(R := R, C := C, parties := parties[r.self := parties[r.self].(z := z)]);
  }

  /** GenerateMessages of round 2: the sum of the shares, if it verifies. */
  method GenerateSignature(s: Suite, r: Round) returns (sig: Option<Signature>)
    ensures sig == Aggregated(s, r)
  {
    hide Verify;
    var signed := SignAgg(s.q, r.R, Zs(r.parties));
    if !Verify(s, r.groupKey, r.message, signed) {
      return None;
    }
    sig := Some(signed);
  }

  ghost function Aggregated(s: Suite, r: Round): Option<Signature> {
    var signed := Signature(r.R, ShareSum(s.q, Zs(r.parties)));
    if Verify(s, r.groupKey, r.message, signed) then Some(signed) else None
  }

  // ---------------------------------------------------------------------------
  // What the rounds keep
  // ---------------------------------------------------------------------------

  /** A public key share with its Lagrange coefficient. */
  predicate Weighted(job: Job, id: ID, public: Element) {
    id in job.pk.shares && public == Mult(Coefficient(job.suite.q, id, job.ids), job.pk.shares[id])
  }

  /** The constant part of the data. */
  ghost predicate Base(job: Job, r: Round)
  {
    && r.self == job.self && r.ids == job.ids && r.message == job.message && r.groupKey == job.pk.groupKey
    && r.parties.Keys == Members(job.ids)
    && (forall id :: id in r.parties ==> Weighted(job, id, r.parties[id].public))
    && r.secret == Coefficient(job.suite.q, job.self, job.ids) * job.secret % job.suite.q
  }

  /** Since round 1: the own commitments belong to the own nonces. */
  ghost predicate Committed(job: Job, r: Round) {
    && Base(job, r) && r.self in r.parties
    && PreShare(r.parties[r.self].D, r.parties[r.self].E) == Commit(NonceState(r.d, r.e))
  }

  /** None of these parties has committed to the identity. */
  ghost predicate NoIdentity(q: Modulus, pre: map<ID, PreShare>, ids: set<ID>) {
    forall id :: id in ids ==> id in pre && !Equal(q, pre[id].D, Zero()) && !Equal(q, pre[id].E, Zero())
  }

  /** What round 1 derives from the commitments. */
  ghost predicate Derived(job: Job, r: Round, pre: map<ID, PreShare>)
    requires pre.Keys == Members(job.ids)
  {
    var nonces := RoundNonces(job.suite, job.ids, pre, job.message);
    && r.R == RoundR(job.suite, job.ids, pre, job.message)
    && r.C == Challenge(job.suite, r.R, job.pk.groupKey, job.message)
    && (forall id :: id in r.parties ==> id in nonces && r.parties[id].R == nonces[id])
  }

  /** The share of id is the one its commitments and its key call for. */
  ghost predicate Answered(job: Job, r: Round, id: ID) {
    && id in r.parties && id in job.pk.shares && r.parties[id].z < job.suite.q
    && ShareVal(job.suite.q, job.pk, job.ids, id, r.parties[id].R, r.C, r.parties[id].z)
  }

  /** In round 2, with valid shares from everybody in `given`. */
  ghost predicate Sharing(job: Job, r: Round, pre: map<ID, PreShare>, given: set<ID>) {
    && Base(job, r) && pre.Keys == Members(job.ids) && Derived(job, r, pre)
    && forall id :: id in given ==> Answered(job, r, id)
  }

  lemma FreshBase(job: Job)
    requires job.Valid()
    ensures Base(job, Fresh(job))
  {
  }

  lemma NoncesCommitted(job: Job, r: Round, n: NonceState)
    requires job.Valid() && Base(job, r)
    ensures r.self in r.parties && Committed(job, WithNonces(r, n))
  {
    assert job.self in Members(job.ids);
  }

  lemma CommitmentKept(job: Job, r: Round, id: ID, pre: PreShare)
    requires Committed(job, r) && id in r.parties && id != job.self
    ensures
      var o := WithCommitment(job.suite.q, r, id, pre);
      && (o.Some? <==> !Equal(job.suite.q, pre.D, Zero()) && !Equal(job.suite.q, pre.E, Zero()))
      && (o.Some? ==> Committed(job, o.value) && View(o.value.parties) == View(r.parties)[id := pre])
  {
  }

  /** The own share of round 1 is the share of ROAST's SignRound on the same inputs. */
  lemma OwnShareIsRoastShare(job: Job, r: Round)
    requires job.Valid() && Committed(job, r)
    ensures SignRound(job.suite, job.pk, job.self, job.secret, NonceState(r.d, r.e), job.ids, View(r.parties), job.message)
         == Some(WithShare(job.suite, r).parties[job.self].z)
  {
    hide Factors;
    hide NonceShares;
    hide Bound;
    hide AggregateNonce;
    hide OwnShare;
    hide SignResponse;
    var s, pre := job.suite, View(r.parties);
    assert job.self in Members(job.ids) && job.self != 0;
    var rho := RoundFactors(s, job.ids, pre, job.message)[job.self];
    var c := Challenge(s, RoundR(s, job.ids, pre, job.message), job.pk.groupKey, job.message);
    OwnShareIs(s.q, r, Coefficient(s.q, job.self, job.ids), job.secret, rho, c);
  }

  lemma OwnShareIs(q: Modulus, r: Round, coef: nat, secret: nat, rho: nat, c: nat)
    requires r.secret == coef * secret % q
    ensures OwnShare(q, r, rho, c) == SignResponse(q, coef, secret, c, NonceState(r.d, r.e), rho)
  {
  }

  /** The check of round 2 is ROAST's ShareVal on the same inputs. */
  lemma ResponseCheckIsRoastCheck(job: Job, r: Round, id: ID, z: nat)
    requires job.Valid() && Base(job, r) && id in r.parties
    ensures id in job.pk.shares
    ensures WithResponse(job.suite.q, r, id, z).Some? <==>
      ShareVal(job.suite.q, job.pk, job.ids, id, r.parties[id].R, r.C, z)
  {
  }

  /** Round 1 ends with the own share given. */
  lemma ShareStarts(job: Job, r: Round)
    requires job.Valid() && job.OwnsShare() && Committed(job, r)
    ensures Sharing(job, WithShare(job.suite, r), View(r.parties), {job.self})
  {
    BaseKept(job, r);
    DerivedNow(job, r);
    OwnAnswered(job, r);
    hide *;
    assert View(r.parties).Keys == Members(job.ids) by { ViewKeys(job, r); }
    SharingIs(job, WithShare(job.suite, r), View(r.parties), {job.self});
  }

  lemma SharingIs(job: Job, r: Round, pre: map<ID, PreShare>, given: set<ID>)
    requires Base(job, r) && pre.Keys == Members(job.ids) && Derived(job, r, pre)
    requires given == {job.self} && Answered(job, r, job.self)
    ensures Sharing(job, r, pre, given)
  {
    hide Derived;
    hide Answered;
    hide Base;
  }

  lemma ViewKeys(job: Job, r: Round)
    requires Base(job, r)
    ensures View(r.parties).Keys == Members(job.ids)
  {
  }

  lemma BaseKept(job: Job, r: Round)
    requires Base(job, r) && r.self in r.parties
    ensures Base(job, WithShare(job.suite, r))
  {
    hide RoundFactors;
    hide RoundR;
    hide Weighted;
  }

  lemma DerivedNow(job: Job, r: Round)
    requires job.Valid() && Committed(job, r)
    ensures View(r.parties).Keys == Members(job.ids) && Derived(job, WithShare(job.suite, r), View(r.parties))
  {
    hide RoundFactors;
    hide AggregateNonce;
    hide NonceShare;
  }

  lemma OwnAnswered(job: Job, r: Round)
    requires job.Valid() && job.OwnsShare() && Committed(job, r)
    ensures Answered(job, WithShare(job.suite, r), job.self)
  {
    hide ShareVal;
    hide SignRound;
    hide Factors;
    hide NonceShares;
    hide Bound;
    var s, pre, r' := job.suite, View(r.parties), WithShare(job.suite, r);
    assert job.self in Members(job.ids) && job.self != 0;
    OwnShareIsRoastShare(job, r);
    DerivedNow(job, r);
    HonestShareValid(s, job.pk, job.self, job.secret, NonceState(r.d, r.e), job.ids, pre, job.message);
    assert RoundFactors(s, job.ids, pre, job.message) == Factors(s, job.ids, pre, job.message);
    assert RoundNonces(s, job.ids, pre, job.message) == NonceShares(job.ids, pre, Factors(s, job.ids, pre, job.message));
    hide AggregateNonce;
    ShareReduced(s, r);
  }

  lemma ShareReduced(s: Suite, r: Round)
    requires r.parties.Keys == Members(r.ids) && r.self in r.parties
    ensures WithShare(s, r).parties[r.self].z < s.q
  {
    hide RoundFactors;
    hide RoundR;
    hide Bound;
  }

  /** Round 2 takes one more valid share; only the share of its sender changes. */
  lemma ResponseKept(job: Job, r: Round, pre: map<ID, PreShare>, given: set<ID>, id: ID, z: nat)
    requires job.Valid() && Sharing(job, r, pre, given) && id in r.parties && z < job.suite.q
    ensures
      var o := WithResponse(job.suite.q, r, id, z);
      o.Some? ==> Sharing(job, o.value, pre, given + {id})
  {
    hide ShareVal;
    hide RoundR;
    hide RoundNonces;
    hide Job.Valid;
    hide Equal;
    hide Weighted;
    ResponseCheckIsRoastCheck(job, r, id, z);
    var o := WithResponse(job.suite.q, r, id, z);
    if o.Some? {
      forall j | j in given + {id}
        ensures Answered(job, o.value, j)
      {
        if j != id {
          assert Answered(job, r, j);
        }
      }
    }
  }

  // ---------------------------------------------------------------------------
  // The signature
  // ---------------------------------------------------------------------------

  /** The one signature the keys, the message and the commitments allow. */
  ghost function AgreedSignature(job: Job, pre: map<ID, PreShare>): Signature
    requires pre.Keys == Members(job.ids)
  {
    var R := RoundR(job.suite, job.ids, pre, job.message);
    var C := Challenge(job.suite, R, job.pk.groupKey, job.message);
    Signature(R, (R.log + C * InterpolatedKey(job.suite.q, job.ids, job.pk.shares).log) % job.suite.q)
  }

  /** With all shares in, the aggregate is the agreed signature, whatever was sent. */
  lemma AggregateIsAgreed(job: Job, r: Round, pre: map<ID, PreShare>)
    requires job.Valid() && Sharing(job, r, pre, Members(job.ids))
    ensures Signature(r.R, ShareSum(job.suite.q, Zs(r.parties))) == AgreedSignature(job, pre)
  {
    hide ShareVal;
    hide RoundNonces;
    hide AllSharesValid;
    hide Answered;
    hide InterpolatedKey;
    AllAnswered(job, r, pre);
    SumOfResponses(job.suite.q, job.pk, job.ids, RoundNonces(job.suite, job.ids, pre, job.message), r.C, Zs(r.parties));
    hide AggregateNonce;
    ShareSumEnumerated(job.suite.q, job.ids, Zs(r.parties));
  }

  lemma AllAnswered(job: Job, r: Round, pre: map<ID, PreShare>)
    requires Sharing(job, r, pre, Members(job.ids))
    ensures AllSharesValid(job.suite.q, job.pk, job.ids, RoundNonces(job.suite, job.ids, pre, job.message), r.C, Zs(r.parties))
    ensures Zs(r.parties).Keys == Members(job.ids)
  {
    hide ShareVal;
    hide RoundR;
    hide RoundNonces;
    hide Weighted;
    var nonceShares := RoundNonces(job.suite, job.ids, pre, job.message);
    forall id <- job.ids
      ensures id in job.pk.shares && id in nonceShares && id in Zs(r.parties)
      ensures ShareVal(job.suite.q, job.pk, job.ids, id, nonceShares[id], r.C, Zs(r.parties)[id])
    {
      assert id in Members(job.ids);
      assert Answered(job, r, id);
    }
  }

  /** The final check fails only if the challenge is not zero and the signers' key shares do
      not interpolate to the group key. */
  lemma FinalCheckExactly(job: Job, r: Round, pre: map<ID, PreShare>)
    requires job.Valid() && Sharing(job, r, pre, Members(job.ids))
    ensures Aggregated(job.suite, r).Some? <==>
      Cong(job.suite.q, r.C, 0) || Equal(job.suite.q, InterpolatedKey(job.suite.q, job.ids, job.pk.shares), job.pk.groupKey)
  {
    hide ShareVal;
    hide RoundNonces;
    hide AllSharesValid;
    hide Answered;
    hide InterpolatedKey;
    hide Verify;
    hide Cong;
    AllAnswered(job, r, pre);
    AggregateVerifiesExactly(job.suite, job.pk, job.ids, RoundNonces(job.suite, job.ids, pre, job.message), job.message, Zs(r.parties));
  }

  /** ErrValidateSignature is unreachable for consistent keys and more than threshold signers. */
  lemma FinalCheckPasses(job: Job, r: Round, pre: map<ID, PreShare>)
    requires job.Valid() && Sharing(job, r, pre, Members(job.ids))
    requires ConsistentKeys(job.suite.q, job.pk) && |job.ids| > job.pk.threshold
    ensures Aggregated(job.suite, r) == Some(AgreedSignature(job, pre))
    ensures Verify(job.suite, job.pk.groupKey, job.message, AgreedSignature(job, pre))
  {
    hide Verify;
    hide AgreedSignature;
    hide Derived;
    hide Answered;
    hide InterpolatedKey;
    hide ConsistentKeys;
    AggregateIsAgreed(job, r, pre);
    FinalCheckExactly(job, r, pre);
    KeySubset(job);
    ConsistentSubsetKey(job.suite.q, job.pk, job.ids);
  }

  lemma KeySubset(job: Job)
    requires job.Valid() && ConsistentKeys(job.suite.q, job.pk)
    ensures Members(job.ids) <= Members(job.pk.partyIDs)
  {
  }

  // ---------------------------------------------------------------------------
  // Equal views, equal signatures
  // ---------------------------------------------------------------------------

  ghost predicate SameView(q: Modulus, pre: map<ID, PreShare>, pre': map<ID, PreShare>) {
    && pre.Keys == pre'.Keys
    && forall id :: id in pre ==> Equal(q, pre[id].D, pre'[id].D) && Equal(q, pre[id].E, pre'[id].E)
  }

  lemma {:induction false} SameList(s: Suite, ids: seq<ID>, pre: map<ID, PreShare>, pre': map<ID, PreShare>)
    requires SameView(s.q, pre, pre') && forall id <- ids :: id in pre
    ensures CommitmentList(s, ids, pre) == CommitmentList(s, ids, pre')
  {
    if ids != [] {
      SameList(s, ids[..|ids| - 1], pre, pre');
    }
  }

  lemma SameFactors(s: Suite, ids: seq<ID>, pre: map<ID, PreShare>, pre': map<ID, PreShare>, message: Bytes)
    requires SameView(s.q, pre, pre') && forall id <- ids :: id in pre
    ensures Factors(s, ids, pre, message) == Factors(s, ids, pre', message)
  {
    SameList(s, ids, pre, pre');
    hide CommitmentList;
  }

  lemma SameNonceShare(q: Modulus, rho: nat, p: PreShare, p': PreShare)
    requires Equal(q, p.D, p'.D) && Equal(q, p.E, p'.E)
    ensures Equal(q, NonceShare(rho, p), NonceShare(rho, p'))
  {
    CongScale(q, rho, p.E.log, p'.E.log);
    CongAdd(q, rho * p.E.log, rho * p'.E.log, p.D.log, p'.D.log);
  }

  lemma SameAggregate(q: Modulus, ids: seq<ID>, pre: map<ID, PreShare>, pre': map<ID, PreShare>, factors: map<ID, nat>)
    requires SameView(q, pre, pre') && forall id <- ids :: id in pre && id in factors
    ensures Equal(q, AggregateNonce(ids, NonceShares(ids, pre, factors)), AggregateNonce(ids, NonceShares(ids, pre', factors)))
  {
    hide NonceShare;
    hide Cong;
    var f, g := Log(NonceShares(ids, pre, factors)), Log(NonceShares(ids, pre', factors));
    forall i | 0 <= i < |ids|
      ensures Cong(q, f(ids[i]), g(ids[i]))
    {
      SameNonceShare(q, factors[ids[i]], pre[ids[i]], pre'[ids[i]]);
    }
    SumCong(q, ids, f, g);
  }

  /** Parties with the same keys, message and view of the commitments agree on the signature. */
  lemma ViewDeterminesSignature(job: Job, job': Job, pre: map<ID, PreShare>, pre': map<ID, PreShare>)
    requires job.Valid() && job' == job.(self := job'.self, secret := job'.secret)
    requires pre.Keys == Members(job.ids) && SameView(job.suite.q, pre, pre')
    ensures
      var sig, sig' := AgreedSignature(job, pre), AgreedSignature(job', pre');
      Equal(job.suite.q, sig.R, sig'.R) && sig.S == sig'.S
  {
    hide InterpolatedKey;
    hide RoundR;
    hide Challenge;
    hide Cong;
    var s, ids := job.suite, job.ids;
    SameR(s, ids, pre, pre', job.message);
    var R, R' := RoundR(s, ids, pre, job.message), RoundR(s, ids, pre', job.message);
    SameChallenge(s, R, R', job.pk.groupKey, job.message);
    SameRemainder(s.q, R.log, R'.log, Challenge(s, R, job.pk.groupKey, job.message) * InterpolatedKey(s.q, ids, job.pk.shares).log);
  }

  lemma SameChallenge(s: Suite, R: Element, R': Element, groupKey: Element, message: Bytes)
    requires Equal(s.q, R, R')
    ensures Challenge(s, R, groupKey, message) == Challenge(s, R', groupKey, message)
  {
  }

  lemma SameRemainder(q: Modulus, a: int, b: int, m: int)
    requires Cong(q, a, b)
    ensures (a + m) % q == (b + m) % q
  {
    CongAdd(q, a, b, m, m);
  }

  lemma SameR(s: Suite, ids: seq<ID>, pre: map<ID, PreShare>, pre': map<ID, PreShare>, message: Bytes)
    requires pre.Keys == Members(ids) && SameView(s.q, pre, pre')
    ensures Equal(s.q, RoundR(s, ids, pre, message), RoundR(s, ids, pre', message))
  {
    hide Cong;
    hide NonceShares;
    assert forall id <- ids :: id in Members(ids);
    SameFactors(s, ids, pre, pre', message);
    hide Factors;
    SameAggregate(s.q, ids, pre, pre', RoundFactors(s, ids, pre, message));
    hide AggregateNonce;
  }
}
