/** The round-based signer does not compare the number of signers with the threshold. With
    exactly `threshold` signers of consistent keys the final check fails unless the challenge or
    the highest coefficient of the key polynomial happens to be zero. */
module TooFewSigners {
  import opened PrimeField
  import opened Interpolation
  import opened Group
  import opened Party
  import opened Frost
  import opened SignRounds
  import A = Assumptions

  /** As many signers as the threshold, one fewer than the keys need: with all shares valid, the
      final check fails if and only if neither the challenge nor the key polynomial's highest
      coefficient is zero. */
  lemma ThresholdSignersFail(job: Job, r: Round, pre: map<ID, PreShare>, c: seq<int>)
    requires job.Valid() && Sharing(job, r, pre, Members(job.ids))
    requires KeyPolynomial(job.suite.q, job.pk, c) && Members(job.ids) <= Members(job.pk.partyIDs)
    requires |job.ids| == job.pk.threshold
    ensures Aggregated(job.suite, r).None? <==> !Cong(job.suite.q, r.C, 0) && !Cong(job.suite.q, c[job.pk.threshold], 0)
  {
    hide Sharing;
    hide Aggregated;
    hide InterpolatedKey;
    hide Eval;
    forall id <- job.ids
      ensures id in job.pk.partyIDs
    {
      assert id in Members(job.ids);
    }
    FinalCheckExactly(job, r, pre);
    OneShareTooFew(job.suite.q, job.ids, job.pk.shares, c);
  }

  /** Shares 1 and 2 of the polynomial X, whose constant term is zero. */
  function Keys(): Public {
    Public([1, 2], 1, map[1 := Element(1), 2 := Element(2)], Element(0))
  }

  function LoneJob(s: Suite, message: Bytes): Job {
    Job(s, Keys(), [1], 1, 1, message)
  }

  /** The data at the end of round 1, with nobody else to wait for. */
  function LoneRound(s: Suite, n: NonceState, message: Bytes): Round {
    WithShare(s, WithNonces(Fresh(LoneJob(s, message)), n))
  }

  lemma KeysConsistent(q: Modulus)
    requires q > 65535
    ensures ConsistentKeys(q, Keys()) && KeyPolynomial(q, Keys(), [0, 1])
  {
    var pk := Keys();
    var c: seq<int> := [0, 1];
    forall id <- pk.partyIDs
      ensures id in pk.shares && pk.shares[id].log == Eval(c, id)
    {
      assert c[1..] == [1] && [1][1..] == [];
    }
    assert Eval(c, 0) == 0;
    assert KeyPolynomial(q, pk, c);
    assert pk.shares.Keys == Members(pk.partyIDs);
  }

  lemma LoneJobValid(s: Suite, message: Bytes)
    requires IsPrime(s.q) && s.q > 65535
    ensures LoneJob(s, message).Valid() && LoneJob(s, message).OwnsShare()
  {
  }

  /** For one: the keys of the polynomial X and one honest signer. */
  lemma LoneSignerFails(s: Suite, n: NonceState, message: Bytes)
    requires IsPrime(s.q) && s.q > 65535
    ensures
      var job, r := LoneJob(s, message), LoneRound(s, n, message);
      && job.Valid() && job.OwnsShare() && ConsistentKeys(s.q, job.pk) && |job.ids| == job.pk.threshold
      && Sharing(job, r, View(WithNonces(Fresh(job), n).parties), Members(job.ids))
      && (Aggregated(s, r).None? <==> !Cong(s.q, r.C, 0))
  {
    var job := LoneJob(s, message);
    KeysConsistent(s.q);
    LoneJobValid(s, message);
    LoneJobSets(s, message);
    hide ConsistentKeys;
    hide KeyPolynomial;
    hide Job.Valid;
    hide Job.OwnsShare;
    hide Aggregated;
    hide Sharing;
    hide Fresh;
    hide WithNonces;
    hide WithShare;
    hide View;
    hide Cong;
    LoneSharing(s, n, message);
    ThresholdSignersFail(job, LoneRound(s, n, message), View(WithNonces(Fresh(job), n).parties), [0, 1]);
    SmallNonzero(s.q, 1);
  }

  lemma LoneJobSets(s: Suite, message: Bytes)
    ensures
      var job := LoneJob(s, message);
      Members(job.ids) == {job.self} && Members(job.ids) <= Members(job.pk.partyIDs) && |job.ids| == job.pk.threshold == 1
  {
    var job := LoneJob(s, message);
    assert Members(job.ids) == {job.self};
    assert 1 in job.pk.partyIDs;
  }

  lemma LoneSharing(s: Suite, n: NonceState, message: Bytes)
    requires IsPrime(s.q) && s.q > 65535
    ensures
      var job, r := LoneJob(s, message), LoneRound(s, n, message);
      Sharing(job, r, View(WithNonces(Fresh(job), n).parties), Members(job.ids))
  {
    var job := LoneJob(s, message);
    LoneJobValid(s, message);
    LoneJobSets(s, message);
    hide Job.Valid;
    hide Job.OwnsShare;
    hide Sharing;
    hide Base;
    hide Committed;
    hide Fresh;
    hide WithNonces;
    hide WithShare;
    hide View;
    FreshBase(job);
    NoncesCommitted(job, Fresh(job), n);
    ShareStarts(job, WithNonces(Fresh(job), n));
  }

  /** With the plain suite the challenge is one, so the check does fail. */
  lemma LoneSignerWitness(q: Modulus, n: NonceState, message: Bytes)
    requires IsPrime(q) && q > 65535
    ensures Aggregated(A.PlainSuite(q), LoneRound(A.PlainSuite(q), n, message)).None?
  {
    hide A.PlainSuite;
    hide Aggregated;
    hide Sharing;
    hide ConsistentKeys;
    hide LoneRound;
    hide Challenge;
    var s, r := A.PlainSuite(q), LoneRound(A.PlainSuite(q), n, message);
    PlainOrder(q);
    LoneSignerFails(s, n, message);
    SharedChallenge(LoneJob(s, message), r, View(WithNonces(Fresh(LoneJob(s, message)), n).parties));
    PlainChallenge(q, r.R, Keys().groupKey, message);
  }

  lemma PlainOrder(q: Modulus)
    ensures A.PlainSuite(q).q == q
  {
  }

  lemma PlainChallenge(q: Modulus, R: Element, key: Element, message: Bytes)
    ensures Challenge(A.PlainSuite(q), R, key, message) == 1
  {
  }

  lemma SharedChallenge(job: Job, r: Round, pre: map<ID, PreShare>)
    requires Sharing(job, r, pre, Members(job.ids))
    ensures r.C == Challenge(job.suite, r.R, job.pk.groupKey, job.message)
  {
    hide RoundR;
    hide RoundNonces;
  }
}
