/** Recovering from the data of an honest session gives back every participant's output. */
module RecoveryCorrect {
  import opened PrimeField
  import opened Interpolation
  import opened Group
  import opened Party
  import opened Wire
  import opened Vss
  import opened Certeq
  import opened Ecdh
  import opened ChillDkg
  import opened ChillDkgSession
  import opened Recovery
  import P = SimplPedPop
  import E = EncPedPop

  /** Equal as far as the group can tell. */
  predicate SameOutput(s: Suite, o: P.DKGOutput, o': P.DKGOutput) {
    && o.secShare == o'.secShare
    && Equal(s.q, o.thresholdPubkey, o'.thresholdPubkey)
    && EqualAll(s, o.pubShares, o'.pubShares)
  }

  predicate SameParams(s: Suite, p: SessionParams, p': SessionParams) {
    p.threshold == p'.threshold && EqualAll(s, p.hostPubkeys, p'.hostPubkeys)
  }

  // ---------------------------------------------------------------------------
  // Equal inputs give equal results
  // ---------------------------------------------------------------------------

  lemma {:induction false} EvalCong(q: Modulus, c: seq<int>, d: seq<int>, x: int)
    requires |c| == |d| && forall k :: 0 <= k < |c| ==> Cong(q, c[k], d[k])
    ensures Cong(q, Eval(c, x), Eval(d, x))
  {
    if c != [] {
      EvalCong(q, c[1..], d[1..], x);
      CongScale(q, x, Eval(c[1..], x), Eval(d[1..], x));
      CongAdd(q, c[0], d[0], x * Eval(c[1..], x), x * Eval(d[1..], x));
    }
  }

  lemma PubShareEqual(s: Suite, es: seq<Element>, fs: seq<Element>, i: nat)
    requires EqualAll(s, es, fs)
    ensures Equal(s.q, PubShare(es, i), PubShare(fs, i))
  {
    EvalCong(s.q, Logs(es), Logs(fs), Point(i));
  }

  lemma PubSharesEqual(s: Suite, es: seq<Element>, fs: seq<Element>, n: nat)
    requires EqualAll(s, es, fs)
    ensures EqualAll(s, PubSharesOf(es, n), PubSharesOf(fs, n))
  {
    forall i | 0 <= i < n
      ensures Equal(s.q, PubSharesOf(es, n)[i], PubSharesOf(fs, n)[i])
    {
      PubShareEqual(s, es, fs, i);
    }
  }

  lemma EcdhPadEqual(s: Suite, seckey: nat, mine: Element, mine': Element, theirs: Element, theirs': Element, context: Bytes)
    requires s.Valid() && Equal(s.q, mine, mine') && Equal(s.q, theirs, theirs')
    ensures EcdhPad(s, seckey, mine, theirs, context, false) == EcdhPad(s, seckey, mine', theirs', context, false)
  {
    CongScale(s.q, seckey, theirs.log, theirs'.log);
    EncodeExact(s, mine, mine');
    EncodeExact(s, theirs, theirs');
    EncodeExact(s, Mult(seckey, theirs), Mult(seckey, theirs'));
  }

  lemma {:induction false} TotalEqual(n: nat, f: nat -> int, g: nat -> int)
    requires forall j :: 0 <= j < n ==> f(j) == g(j)
    ensures Total(n, f) == Total(n, g)
  {
    if n > 0 {
      TotalEqual(n - 1, f, g);
    }
  }

  lemma DecryptedEqual(s: Suite, deckey: nat, key: Element, key': Element, nonces: seq<Element>, nonces': seq<Element>, context: Bytes, idx: nat, c: nat)
    requires s.Valid() && Equal(s.q, key, key') && EqualAll(s, nonces, nonces')
    ensures Decrypted(s, deckey, key, nonces, context, idx, c) == Decrypted(s, deckey, key', nonces', context, idx, c)
  {
    hide Suite.Valid;
    hide EcdhPad;
    hide Equal;
    hide Suite.Encode;
    var f, g := PadTerms(s, deckey, key, nonces, context, idx), PadTerms(s, deckey, key', nonces', context, idx);
    forall j | 0 <= j < |nonces|
      ensures f(j) == g(j)
    {
      EcdhPadEqual(s, deckey, key, key', nonces[j], nonces'[j], U32(idx) + context);
      EncodeExact(s, nonces[j], nonces'[j]);
    }
    TotalEqual(|nonces|, f, g);
  }

  lemma CertifiedEqual(s: Suite, keys: seq<Element>, keys': seq<Element>, eqInput: Bytes, cert: Bytes)
    requires s.Valid() && EqualAll(s, keys, keys') && Certified(s, keys, eqInput, cert)
    ensures Certified(s, keys', eqInput, cert)
  {
    hide Suite.Valid;
    hide SchnorrVerify;
    hide Equal;
    forall i | 0 <= i < |keys|
      ensures SignedBy(s, keys', eqInput, cert, i)
    {
      assert SignedBy(s, keys, eqInput, cert, i);
      VerifyRespectsEqual(s, keys[i], keys'[i], CerteqMessage(eqInput, i), Block(cert, 64, i));
    }
  }

  lemma EqualSymmetric(s: Suite, es: seq<Element>, fs: seq<Element>)
    requires EqualAll(s, es, fs)
    ensures EqualAll(s, fs, es)
  {
  }

  /** The transcript and its canonical form are the same bytes. */
  lemma CanonicalBytes(s: Suite, tr: Transcript)
    requires s.Valid()
    ensures EqInput(s, CanonicalTranscript(s, tr)) == EqInput(s, tr)
    ensures E.Context(s, tr.t, Canonical(s, tr.hostPubkeys)) == E.Context(s, tr.t, tr.hostPubkeys)
    ensures EqualAll(s, tr.sumComs, Canonical(s, tr.sumComs)) && EqualAll(s, tr.hostPubkeys, Canonical(s, tr.hostPubkeys))
    ensures EqualAll(s, tr.pubnonces, Canonical(s, tr.pubnonces))
  {
    hide Suite.Valid;
    hide ElementBlocks;
    hide Equal;
    hide Canonical;
    CanonicalEqual(s, tr.sumComs);
    CanonicalEqual(s, tr.hostPubkeys);
    CanonicalEqual(s, tr.pubnonces);
    EqualSymmetric(s, Canonical(s, tr.sumComs), tr.sumComs);
    EqualSymmetric(s, Canonical(s, tr.hostPubkeys), tr.hostPubkeys);
    EqualSymmetric(s, Canonical(s, tr.pubnonces), tr.pubnonces);
  }

  // ---------------------------------------------------------------------------
  // The data of an honest session
  // ---------------------------------------------------------------------------

  lemma SessionShaped(s: Suite, x: Inputs)
    requires x.Honest(s)
    ensures Shaped(s, SessionTranscript(s, x)) && SessionTranscript(s, x).hostPubkeys == x.params.hostPubkeys
    ensures SessionTranscript(s, x).t == x.T() && SessionTranscript(s, x).sumComs == P.FromLogs(JointPoly(s, x))
  {
    hide P.SumComsOf;
    hide P.Reply;
    hide E.Usable;
    hide E.Msgs;
    hide JointPoly;
    hide Messages;
    hide Suite.Valid;
    SumIsJoint(s, x);
  }

  /** Reading the recovery data of a session: a certified transcript that is equal to the
      session's. */
  lemma SessionDataParses(s: Suite, x: Inputs)
    requires x.Honest(s)
    ensures
      var tr := CanonicalTranscript(s, SessionTranscript(s, x));
      && Deserialize(s, RecoveryData(s, x)) == Some((tr, Join(Signatures(s, x))))
      && Certified(s, tr.hostPubkeys, EqInput(s, tr), Join(Signatures(s, x)))
  {
    hide Suite.Valid;
    hide SessionTranscript;
    hide Signatures;
    hide Certified;
    hide Deserialize;
    hide EqInput;
    hide Canonical;
    hide ValidParams;
    var tr := SessionTranscript(s, x);
    SessionShaped(s, x);
    SignaturesValid(s, x);
    JoinSize(Signatures(s, x), 64);
    DeserializeSerialize(s, tr, Join(Signatures(s, x)));
    CanonicalBytes(s, tr);
    CertifiedEqual(s, tr.hostPubkeys, Canonical(s, tr.hostPubkeys), EqInput(s, tr), Join(Signatures(s, x)));
  }

  /** Participant i finds its own place and decrypts its own share. */
  lemma SessionShare(s: Suite, x: Inputs, i: nat, idx: nat)
    requires x.Honest(s) && i < x.N()
    requires IsPlace(s.q, Canonical(s, x.params.hostPubkeys), BaseMult(x.hostseckeys[i]), idx)
    ensures
      var tr := CanonicalTranscript(s, SessionTranscript(s, x));
      && idx == i && i < |tr.hostPubkeys| && i < |tr.encSecshares|
      && Some(RecoveredShare(s, tr, x.hostseckeys[i], i)) == Output(s, x, i).secShare
  {
    var tr := SessionTranscript(s, x);
    var ctr := CanonicalTranscript(s, tr);
    SessionShaped(s, x);
    CanonicalEqual(s, x.params.hostPubkeys);
    OnePlace(s.q, x.params.hostPubkeys, BaseMult(x.hostseckeys[i]), idx, i);
    CanonicalBytes(s, tr);
    ReplyIndexable(s, x, i);
    ShareIsJoint(s, x, i);
    TranscriptsAgree(s, x, i);
    hide *;
    ShareFromTranscript(s, x, i);
    SameShare(s, tr, x.hostseckeys[i], i);
  }

  lemma SameShare(s: Suite, tr: Transcript, key: nat, i: nat)
    requires s.Valid() && i < |tr.hostPubkeys| && i < |tr.encSecshares|
    ensures RecoveredShare(s, CanonicalTranscript(s, tr), key, i) == RecoveredShare(s, tr, key, i)
  {
    hide Suite.Valid;
    hide Decrypted;
    hide E.Context;
    hide EqInput;
    CanonicalBytes(s, tr);
    hide Canonical;
    DecryptedEqual(s, key, tr.hostPubkeys[i], Canonical(s, tr.hostPubkeys)[i], tr.pubnonces, Canonical(s, tr.pubnonces),
                   E.Context(s, tr.t, tr.hostPubkeys), i, tr.encSecshares[i]);
  }

  lemma ShareFromTranscript(s: Suite, x: Inputs, i: nat)
    requires x.Honest(s) && i < x.N() && Indexable(StateOf(s, x, i), CoordinatorReply(s, x))
    requires OutputOf(s, x.hostseckeys[i], StateOf(s, x, i), CoordinatorReply(s, x)) == Output(s, x, i)
    requires TranscriptOf(StateOf(s, x, i), CoordinatorReply(s, x)) == SessionTranscript(s, x)
    ensures i < |SessionTranscript(s, x).hostPubkeys| && i < |SessionTranscript(s, x).encSecshares|
    ensures Output(s, x, i).secShare == Some(RecoveredShare(s, SessionTranscript(s, x), x.hostseckeys[i], i))
  {
    hide Suite.Valid;
    hide ValidParams;
    hide Decrypted;
    hide CoordinatorReply;
    hide P.SumComsOf;
    hide E.Context;
    hide SessionTranscript;
    hide Output;
    hide PubSharesOf;
    hide PolyOf;
    hide NonceOf;
  }

  /** The public part of what is recovered. */
  lemma SessionPublic(s: Suite, x: Inputs, i: nat, share: Option<nat>)
    requires x.Honest(s)
    ensures
      var tr := CanonicalTranscript(s, SessionTranscript(s, x));
      && tr.t == x.T() && |tr.sumComs| == x.T() && |tr.hostPubkeys| == x.N()
      && SameParams(s, RecoveredParams(tr), x.params)
      && SameOutput(s, P.DKGOutput(share, tr.sumComs[0], PubSharesOf(tr.sumComs, x.N())), Output(s, x, i).(secShare := share))
  {
    hide Suite.Valid;
    hide ValidParams;
    hide SessionTranscript;
    hide JointPoly;
    hide EqInput;
    hide E.Context;
    hide Equal;
    hide PubSharesOf;
    hide P.FromLogs;
    var tr := SessionTranscript(s, x);
    var c := P.FromLogs(JointPoly(s, x));
    SessionShaped(s, x);
    CanonicalEqual(s, tr.sumComs);
    CanonicalEqual(s, tr.hostPubkeys);
    hide Canonical;
    ParamsRange(s, x.params);
    PubSharesEqual(s, Canonical(s, tr.sumComs), tr.sumComs, x.N());
    assert c[0] == Element(JointPoly(s, x)[0]) by { FirstLog(JointPoly(s, x)); }
  }

  lemma FirstLog(c: seq<int>)
    requires c != []
    ensures P.FromLogs(c)[0] == Element(c[0])
  {
  }

  /** From the recovery data of an honest session, the host key of participant i recovers
      exactly the output of participant i and the session parameters. */
  lemma RecoverReturnsOutput(s: Suite, x: Inputs, i: nat, o: Outcome)
    requires x.Honest(s) && i < x.N() && IsOutcome(s, Some(x.hostseckeys[i]), RecoveryData(s, x), o)
    ensures o.Recovered? && SameOutput(s, o.output, Output(s, x, i)) && SameParams(s, o.params, x.params)
  {
    hide Suite.Valid;
    hide ValidParams;
    hide SessionTranscript;
    hide CanonicalTranscript;
    hide RecoveryData;
    hide Deserialize;
    hide Certified;
    hide EqInput;
    hide Output;
    hide OutcomeAt;
    hide SameOutput;
    hide SameParams;
    hide IsOutcome;
    hide Equal;
    hide IsPlace;
    hide Signatures;
    hide VerifySecShare;
    hide RecoveredShare;
    var tr := CanonicalTranscript(s, SessionTranscript(s, x));
    var key := x.hostseckeys[i];
    SessionDataParses(s, x);
    SessionPublic(s, x, i, Output(s, x, i).secShare);
    ParamsRange(s, x.params);
    OwnKeyPresent(s, x, i);
    var idx := OutcomePlace(s, key, RecoveryData(s, x), tr, Join(Signatures(s, x)), i, o);
    CanonicalKeys(s, x);
    SessionShare(s, x, i, idx);
    ShareVerifies(s, x, i);
    OutcomeGood(s, x, i, o);
  }

  lemma OutcomePlace(s: Suite, key: nat, data: Bytes, tr: Transcript, cert: Bytes, i: nat, o: Outcome) returns (idx: nat)
    requires s.Valid() && IsOutcome(s, Some(key), data, o) && Deserialize(s, data) == Some((tr, cert))
    requires Certified(s, tr.hostPubkeys, EqInput(s, tr), cert) && tr.t >= 1
    requires i < |tr.hostPubkeys| && Equal(s.q, tr.hostPubkeys[i], BaseMult(key))
    ensures idx < |tr.hostPubkeys| && idx < |tr.encSecshares| && tr.sumComs != []
    ensures IsPlace(s.q, tr.hostPubkeys, BaseMult(key), idx) && o == OutcomeAt(s, tr, key, idx)
  {
    hide Suite.Valid;
    hide Deserialize;
    hide Certified;
    hide EqInput;
    hide OutcomeAt;
    hide Equal;
    SerializeDeserialize(s, data);
    idx :| IsPlace(s.q, tr.hostPubkeys, BaseMult(key), idx) && o == OutcomeAt(s, tr, key, idx);
  }

  lemma CanonicalKeys(s: Suite, x: Inputs)
    requires x.Honest(s)
    ensures CanonicalTranscript(s, SessionTranscript(s, x)).hostPubkeys == Canonical(s, x.params.hostPubkeys)
  {
    hide Suite.Valid;
    SessionShaped(s, x);
    hide SessionTranscript;
  }

  lemma OwnKeyPresent(s: Suite, x: Inputs, i: nat)
    requires x.Honest(s) && i < x.N()
    ensures
      var tr := CanonicalTranscript(s, SessionTranscript(s, x));
      i < |tr.hostPubkeys| && Equal(s.q, tr.hostPubkeys[i], BaseMult(x.hostseckeys[i]))
  {
    hide Suite.Valid;
    CanonicalKeys(s, x);
    CanonicalEqual(s, x.params.hostPubkeys);
    hide CanonicalTranscript;
    hide SessionTranscript;
    hide Canonical;
  }

  /** The recovered share passes the check against the recovered commitment. */
  lemma ShareVerifies(s: Suite, x: Inputs, i: nat)
    requires x.Honest(s) && i < x.N()
    ensures
      var tr := CanonicalTranscript(s, SessionTranscript(s, x));
      Output(s, x, i).secShare.Some? && VerifySecShare(s.q, Output(s, x, i).secShare.value, PubShare(tr.sumComs, i))
  {
    hide Suite.Valid;
    hide ValidParams;
    var c := JointPoly(s, x);
    var points := P.FromLogs(c);
    SessionShaped(s, x);
    hide SessionTranscript;
    hide JointPoly;
    VerifyExact(s.q, points, i, SecShare(s.q, c, i));
    CanonicalEqual(s, points);
    PubShareEqual(s, Canonical(s, points), points, i);
    hide Canonical;
    hide PubShare;
    hide SecShare;
  }

  lemma OutcomeGood(s: Suite, x: Inputs, i: nat, o: Outcome)
    requires x.Honest(s) && i < x.N()
    requires
      var tr := CanonicalTranscript(s, SessionTranscript(s, x));
      && tr.sumComs != [] && i < |tr.hostPubkeys| == x.N() && i < |tr.encSecshares|
      && o == OutcomeAt(s, tr, x.hostseckeys[i], i)
      && Some(RecoveredShare(s, tr, x.hostseckeys[i], i)) == Output(s, x, i).secShare
      && VerifySecShare(s.q, Output(s, x, i).secShare.value, PubShare(tr.sumComs, i))
      && SameOutput(s, P.DKGOutput(Output(s, x, i).secShare, tr.sumComs[0], PubSharesOf(tr.sumComs, x.N())), Output(s, x, i))
      && SameParams(s, RecoveredParams(tr), x.params)
    ensures o.Recovered? && SameOutput(s, o.output, Output(s, x, i)) && SameParams(s, o.params, x.params)
  {
    hide Suite.Valid;
    hide ValidParams;
    hide SessionTranscript;
    hide CanonicalTranscript;
    hide Output;
    hide SameOutput;
    hide SameParams;
    hide RecoveredShare;
    hide VerifySecShare;
    hide PubSharesOf;
    hide PubShare;
  }

  /** Without a host key, the coordinator's output comes back. */
  lemma RecoverPublicOutput(s: Suite, x: Inputs, i: nat, o: Outcome)
    requires x.Honest(s) && IsOutcome(s, None, RecoveryData(s, x), o)
    ensures o.Recovered? && SameOutput(s, o.output, Output(s, x, i).(secShare := None)) && SameParams(s, o.params, x.params)
  {
    SessionDataParses(s, x);
    SessionPublic(s, x, i, None);
    ParamsRange(s, x.params);
    hide Suite.Valid;
    hide ValidParams;
    hide SessionTranscript;
    hide RecoveryData;
    hide Deserialize;
    hide Certified;
    hide EqInput;
    hide Output;
    hide SameOutput;
    hide SameParams;
  }

  /** Whatever Recover accepts is certified by every host key it names, and is reproduced byte
      for byte from what was read. */
  lemma RecoveredIsCertified(s: Suite, hostseckey: Option<nat>, data: Bytes, o: Outcome)
    requires s.Valid() && IsOutcome(s, hostseckey, data, o) && !o.Refused?
    ensures Deserialize(s, data).Some?
    ensures
      var (tr, cert) := Deserialize(s, data).value;
      && Serialize(s, tr, cert) == data
      && Certified(s, tr.hostPubkeys, EqInput(s, tr), cert)
      && (o == Panics <==> tr.t == 0)
  {
    hide Suite.Valid;
    hide Certified;
    hide EqInput;
    hide Deserialize;
    hide OutcomeAt;
    if Deserialize(s, data).Some? {
      SerializeDeserialize(s, data);
    }
    NeverPanicsAt(s, data);
  }

  /** A share is only recovered for a named host key, and it is the share of the polynomial
      committed to in the data, matching its public share. */
  lemma RecoveredShareMatches(s: Suite, key: nat, data: Bytes, o: Outcome) returns (idx: nat)
    requires s.Valid() && IsOutcome(s, Some(key), data, o) && o.Recovered?
    ensures Deserialize(s, data).Some? && idx < |o.params.hostPubkeys| == |o.output.pubShares|
    ensures Equal(s.q, o.params.hostPubkeys[idx], BaseMult(key)) && o.output.secShare.Some?
    ensures Equal(s.q, BaseMult(o.output.secShare.value), o.output.pubShares[idx])
    ensures o.output.secShare.value == SecShare(s.q, Logs(Deserialize(s, data).value.0.sumComs), idx)
  {
    hide Suite.Valid;
    hide Certified;
    hide EqInput;
    hide Deserialize;
    hide RecoveredShare;
    hide SecShare;
    hide PubShare;
    hide Equal;
    var (tr, cert) := Deserialize(s, data).value;
    SerializeDeserialize(s, data);
    idx :| IsPlace(s.q, tr.hostPubkeys, BaseMult(key), idx) && o == OutcomeAt(s, tr, key, idx);
    VerifyExact(s.q, tr.sumComs, idx, RecoveredShare(s, tr, key, idx));
  }

  lemma NeverPanicsAt(s: Suite, data: Bytes)
    ensures forall tr: Transcript, key: nat, idx: nat ::
      idx < |tr.hostPubkeys| && idx < |tr.encSecshares| && tr.sumComs != [] ==> OutcomeAt(s, tr, key, idx) != Panics
  {
  }

  /** Four zero bytes are such data: no participants, an empty certificate, and t = 0. */
  lemma ZeroDataPanics(s: Suite, hostseckey: Option<nat>, o: Outcome)
    requires s.Valid() && IsOutcome(s, hostseckey, [0, 0, 0, 0], o)
    ensures o == Panics
  {
    hide Suite.Valid;
    hide Deserialize;
    hide EqInput;
    hide SignedBy;
    hide OutcomeAt;
    ZeroDataParses(s);
  }

  lemma ZeroDataParses(s: Suite)
    ensures Deserialize(s, [0, 0, 0, 0]) == Some((Transcript(0, [], [], [], []), []))
  {
    var data: Bytes := [0, 0, 0, 0];
    assert data[..4] == data && U32Value(data) == 0;
    hide U32Value;
    assert Cuttable(data) && Tail(data) == [];
    assert Cut(data) == Fields(0, 0, [], [], [], [], []);
  }

  // ---------------------------------------------------------------------------
  // The 16-bit threshold
  // ---------------------------------------------------------------------------

  /** The recovered parameters name the host keys and the threshold of the transcript if and
      only if that threshold fits 16 bits. */
  lemma RecoveredParamsExactly(s: Suite, hostseckey: Option<nat>, data: Bytes, o: Outcome)
    requires s.Valid() && IsOutcome(s, hostseckey, data, o) && o.Recovered?
    ensures Deserialize(s, data).Some?
    ensures
      var tr := Deserialize(s, data).value.0;
      o.params.hostPubkeys == tr.hostPubkeys && (o.params.threshold == tr.t <==> tr.t < 0x1_0000)
  {
    hide Suite.Valid;
    hide IsOutcome;
    hide Deserialize;
    OutcomeParams(s, hostseckey, data, o);
  }

  lemma OutcomeParams(s: Suite, hostseckey: Option<nat>, data: Bytes, o: Outcome)
    requires s.Valid() && IsOutcome(s, hostseckey, data, o) && o.Recovered?
    ensures Deserialize(s, data).Some? && o.params == RecoveredParams(Deserialize(s, data).value.0)
  {
    hide Suite.Valid;
    hide Certified;
    hide EqInput;
    hide Deserialize;
    hide RecoveredParams;
    hide RecoveredShare;
    hide VerifySecShare;
    hide PubSharesOf;
    hide Equal;
  }

  /** Any transcript with t >= 1 that the holders of its host keys sign is accepted. */
  lemma SignedIsAccepted(s: Suite, tr: Transcript, keys: seq<nat>, o: Outcome)
    requires s.Valid() && Shaped(s, tr) && tr.t >= 1 && |keys| == |tr.hostPubkeys|
    requires forall i :: 0 <= i < |keys| ==> Equal(s.q, tr.hostPubkeys[i], BaseMult(keys[i]))
    requires IsOutcome(s, None, Serialize(s, tr, Join(SignAll(s, keys, EqInput(s, tr)))), o)
    ensures o.Recovered? && o.params.threshold == tr.t % 0x1_0000 && EqualAll(s, o.params.hostPubkeys, tr.hostPubkeys)
  {
    hide Suite.Valid;
    hide Certified;
    hide EqInput;
    hide Deserialize;
    hide SignAll;
    hide Equal;
    hide Serialize;
    hide Canonical;
    var cert := Join(SignAll(s, keys, EqInput(s, tr)));
    SignAllCertifies(s, tr.hostPubkeys, keys, EqInput(s, tr));
    JoinSize(SignAll(s, keys, EqInput(s, tr)), 64);
    DeserializeSerialize(s, tr, cert);
    CanonicalBytes(s, tr);
    CanonicalEqual(s, tr.hostPubkeys);
    CertifiedEqual(s, tr.hostPubkeys, Canonical(s, tr.hostPubkeys), EqInput(s, tr), cert);
  }

  /** A transcript of one participant, with host key 1, for any t. */
  function LoneTranscript(t: nat): Transcript {
    Transcript(t, seq(t, _ => Zero()), [BaseMult(1)], [Zero()], [0])
  }

  lemma LoneShaped(s: Suite, t: nat)
    requires s.Valid() && t < 0x1_0000_0000
    ensures Shaped(s, LoneTranscript(t))
  {
  }

  /** For every t that does not fit, certified data is accepted with a wrong threshold. */
  lemma WrongThresholdAccepted(s: Suite, t: nat, o: Outcome)
    requires s.Valid() && 0x1_0000 <= t < 0x1_0000_0000
    requires IsOutcome(s, None, Serialize(s, LoneTranscript(t), Join(SignAll(s, [1], EqInput(s, LoneTranscript(t))))), o)
    ensures o.Recovered? && o.params.threshold != t
  {
    hide Suite.Valid;
    hide IsOutcome;
    hide EqInput;
    hide SignAll;
    hide Serialize;
    hide Shaped;
    LoneShaped(s, t);
    SignedIsAccepted(s, LoneTranscript(t), [1], o);
  }
}
