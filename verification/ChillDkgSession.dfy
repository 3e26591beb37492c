/** A whole session of ChillDKG with honest parties: it succeeds exactly when no constant term
    is zero, every participant gets its share of the joint polynomial, and all agree on the
    public outputs and the recovery data. */
module ChillDkgSession {
  import opened PrimeField
  import opened Interpolation
  import opened Group
  import opened Party
  import opened Wire
  import opened Vss
  import opened Certeq
  import opened ChillDkg
  import P = SimplPedPop
  import E = EncPedPop
  import Ecdh

  datatype Inputs = Inputs(hostseckeys: seq<nat>, params: SessionParams, randoms: seq<Bytes>) {
    function N(): nat { |params.hostPubkeys| }

    function T(): nat { params.threshold }

    /** One randomness string of 32 bytes per secret key. */
    predicate WellFormed() {
      |randoms| == |hostseckeys| && forall i :: 0 <= i < |randoms| ==> |randoms[i]| == 32
    }

    /** Valid parameters, and the secret keys of all participants in their order. */
    ghost predicate Honest(s: Suite) {
      && s.Valid() && WellFormed() && ValidParams(s, params) && |hostseckeys| == N()
      && forall i :: 0 <= i < N() ==> Equal(s.q, params.hostPubkeys[i], BaseMult(hostseckeys[i]))
    }
  }

  /** The secrets behind an honest session. */
  ghost function SessionOf(s: Suite, x: Inputs): (h: E.Session)
    requires x.Honest(s)
    ensures h.Valid(s) && h.N() == x.N() && h.t == x.T()
  {
    E.Session(x.T(), x.params.hostPubkeys, x.hostseckeys,
      seq(x.N(), j requires 0 <= j < x.N() => PolyOf(s, x.hostseckeys[j], x.params, x.randoms[j])),
      seq(x.N(), j requires 0 <= j < x.N() => NonceOf(s, x.hostseckeys[j], x.params, x.randoms[j])))
  }

  ghost function JointPoly(s: Suite, x: Inputs): (c: seq<int>)
    requires x.Honest(s)
    ensures |c| == x.T()
  {
    E.JointPoly(s, SessionOf(s, x))
  }

  ghost predicate NonzeroConstant(s: Suite, x: Inputs, j: nat)
    requires x.Honest(s) && j < x.N()
  {
    PolyOf(s, x.hostseckeys[j], x.params, x.randoms[j])[0] % s.q != 0
  }

  ghost predicate OthersNonzero(s: Suite, x: Inputs, i: nat)
    requires x.Honest(s)
  {
    forall j :: 0 <= j < x.N() && j != i ==> NonzeroConstant(s, x, j)
  }

  /** Every constant term that somebody else looks at is not zero. */
  ghost predicate Proper(s: Suite, x: Inputs)
    requires x.Honest(s)
  {
    x.N() == 1 || forall j :: 0 <= j < x.N() ==> NonzeroConstant(s, x, j)
  }

  /** The output of participant i: its value of the joint polynomial, and the public values. */
  ghost function Output(s: Suite, x: Inputs, i: nat): P.DKGOutput
    requires x.Honest(s)
  {
    var c := JointPoly(s, x);
    P.DKGOutput(Some(SecShare(s.q, c, i)), Element(c[0]), PubSharesOf(P.FromLogs(c), x.N()))
  }

  ghost function StateOf(s: Suite, x: Inputs, i: nat): ParticipantState1
    requires x.Honest(s) && i < x.N()
  {
    StateAt(s, x.hostseckeys[i], x.params, x.randoms[i], i)
  }

  ghost function Messages(s: Suite, x: Inputs): (pmsgs: seq<E.ParticipantMsg>)
    requires x.Honest(s)
    ensures |pmsgs| == x.N() && E.Usable(pmsgs, x.T())
  {
    E.MsgsUsable(s, SessionOf(s, x));
    E.Msgs(s, SessionOf(s, x))
  }

  ghost function CoordinatorReply(s: Suite, x: Inputs): CoordinatorMsg1
    requires x.Honest(s)
  {
    ReplyTo(s.q, Messages(s, x), x.T())
  }

  ghost function SessionTranscript(s: Suite, x: Inputs): Transcript
    requires x.Honest(s)
  {
    var cmsg := CoordinatorReply(s, x);
    Transcript(x.T(), P.SumComsOf(cmsg.enc.simpl), x.params.hostPubkeys, cmsg.enc.pubnonces, cmsg.encSecshares)
  }

  ghost function Signatures(s: Suite, x: Inputs): (sigs: seq<Bytes>)
    requires x.Honest(s)
    ensures |sigs| == x.N()
  {
    SignAll(s, x.hostseckeys, EqInput(s, SessionTranscript(s, x)))
  }

  function SignAll(s: Suite, keys: seq<nat>, eqInput: Bytes): (sigs: seq<Bytes>)
    ensures |sigs| == |keys|
  {
    seq(|keys|, i requires 0 <= i < |keys| => CerteqSign(s, keys[i], BaseMult(keys[i]), i, eqInput))
  }

  /** The recovery data: transcript and certificate. */
  ghost function RecoveryData(s: Suite, x: Inputs): Bytes
    requires x.Honest(s)
  {
    EqInput(s, SessionTranscript(s, x)) + Join(Signatures(s, x))
  }

  // ---------------------------------------------------------------------------
  // The participants' checks
  // ---------------------------------------------------------------------------

  lemma ReplyIndexable(s: Suite, x: Inputs, i: nat)
    requires x.Honest(s) && i < x.N()
    ensures Indexable(StateOf(s, x, i), CoordinatorReply(s, x))
  {
    hide E.Usable;
    hide E.Msgs;
    hide PolyOf;
    hide NonceOf;
    hide SumPolys;
  }

  lemma TranscriptsAgree(s: Suite, x: Inputs, i: nat)
    requires x.Honest(s) && i < x.N()
    ensures TranscriptOf(StateOf(s, x, i), CoordinatorReply(s, x)) == SessionTranscript(s, x)
  {
    hide ReplyTo;
  }

  /** The coordinator's sums are the joint polynomial in the exponent. */
  lemma SumIsJoint(s: Suite, x: Inputs)
    requires x.Honest(s)
    ensures P.SumComsOf(CoordinatorReply(s, x).enc.simpl) == P.FromLogs(JointPoly(s, x))
  {
    hide E.Usable;
    hide E.Msgs;
    hide P.Reply;
    hide P.SumComsOf;
    E.JointCommitment(s, SessionOf(s, x));
    P.SameLogs(P.SumComsOf(CoordinatorReply(s, x).enc.simpl), P.FromLogs(JointPoly(s, x)));
  }

  /** Participant i decrypts its value of the joint polynomial. */
  lemma ShareIsJoint(s: Suite, x: Inputs, i: nat)
    requires x.Honest(s) && i < x.N()
    ensures Indexable(StateOf(s, x, i), CoordinatorReply(s, x))
    ensures OutputOf(s, x.hostseckeys[i], StateOf(s, x, i), CoordinatorReply(s, x)) == Output(s, x, i)
  {
    ReplyIndexable(s, x, i);
    SumIsJoint(s, x);
    E.ReceivesJointShare(s, SessionOf(s, x), i);
    hide *;
    ShareUnfolded(s, x, i);
  }

  lemma ShareUnfolded(s: Suite, x: Inputs, i: nat)
    requires x.Honest(s) && i < x.N() && Indexable(StateOf(s, x, i), CoordinatorReply(s, x))
    requires P.SumComsOf(CoordinatorReply(s, x).enc.simpl) == P.FromLogs(JointPoly(s, x))
    requires
      var h := SessionOf(s, x);
      Ecdh.Decrypted(s, h.deckeys[i], h.enckeys[i], E.PubNonces(E.Msgs(s, h)), E.Context(s, h.t, h.enckeys), i,
                  E.SumCiphertexts(s.q, E.Msgs(s, h))[i])
      == SecShare(s.q, E.JointPoly(s, h), i)
    ensures OutputOf(s, x.hostseckeys[i], StateOf(s, x, i), CoordinatorReply(s, x)) == Output(s, x, i)
  {
    hide E.Msgs;
    hide E.SumCiphertexts;
    hide Ecdh.Decrypted;
    hide SecShare;
    hide P.SumComsOf;
    hide P.Reply;
    hide E.JointPoly;
    hide PubSharesOf;
    hide E.Usable;
    hide PolyOf;
    hide NonceOf;
    hide E.Context;
  }

  /** Participant i accepts exactly when the others' constant terms are not zero. */
  lemma HonestAccepts(s: Suite, x: Inputs, i: nat)
    requires x.Honest(s) && i < x.N()
    ensures Indexable(StateOf(s, x, i), CoordinatorReply(s, x))
    ensures Accepts(s, x.hostseckeys[i], StateOf(s, x, i), CoordinatorReply(s, x)) <==>
      OthersNonzero(s, x, i)
  {
    ReplyIndexable(s, x, i);
    ShareIsJoint(s, x, i);
    SumIsJoint(s, x);
    var state, cmsg := StateOf(s, x, i), CoordinatorReply(s, x);
    var share := E.ReceivedShare(s, state.enc, x.hostseckeys[i], cmsg.enc, cmsg.encSecshares[i]);
    VerifyExact(s.q, P.FromLogs(JointPoly(s, x)), i, share);
    OwnValues(s, x, i);
    PopsOK(s, x, i);
    hide Inputs.Honest;
    hide StateOf;
    hide CoordinatorReply;
    hide JointPoly;
    hide OthersNonzero;
    hide P.OthersOK;
    hide E.ReceivedShare;
    hide SecShare;
    hide P.SumComsOf;
    hide P.FromLogs;
    hide VerifySecShare;
    hide Equal;
  }

  /** The coordinator repeats a participant's own values. */
  lemma OwnValues(s: Suite, x: Inputs, i: nat)
    requires x.Honest(s) && i < x.N() && Indexable(StateOf(s, x, i), CoordinatorReply(s, x))
    ensures
      var state, cmsg := StateOf(s, x, i), CoordinatorReply(s, x);
      && Equal(s.q, cmsg.enc.pubnonces[i], state.enc.pubnonce)
      && Equal(s.q, cmsg.enc.simpl.comsToSecrets[i], state.enc.simpl.comToSecret)
  {
    hide E.EncShares;
    hide SchnorrSign;
    hide SumPolys;
    hide PolyOf;
    hide NonceOf;
    hide E.Context;
    hide E.Usable;
    hide E.SumCiphertexts;
    var h := SessionOf(s, x);
    assert Messages(s, x)[i] == E.MsgOf(s, h, i);
  }

  lemma PopsOK(s: Suite, x: Inputs, i: nat)
    requires x.Honest(s) && i < x.N() && Indexable(StateOf(s, x, i), CoordinatorReply(s, x))
    ensures P.OthersOK(s, CoordinatorReply(s, x).enc.simpl, x.N(), i) <==>
      OthersNonzero(s, x, i)
  {
    hide P.PopOK;
    hide P.Reply;
    hide PolyOf;
    hide NonceOf;
    hide E.Msgs;
    hide E.Usable;
    hide E.SumCiphertexts;
    var h := SessionOf(s, x);
    E.MsgsUsable(s, h);
    var ms := E.SimplMsgs(E.Msgs(s, h));
    forall j | 0 <= j < x.N()
      ensures P.PopOK(s, CoordinatorReply(s, x).enc.simpl, j) <==> NonzeroConstant(s, x, j)
    {
      P.HonestPop(s, h.polys, ms, x.T(), j);
    }
  }

  /** All participants accept exactly in a proper session. */
  lemma AllAccept(s: Suite, x: Inputs)
    requires x.Honest(s)
    ensures forall i :: 0 <= i < x.N() ==> Indexable(StateOf(s, x, i), CoordinatorReply(s, x))
    ensures (forall i :: 0 <= i < x.N() ==> Accepts(s, x.hostseckeys[i], StateOf(s, x, i), CoordinatorReply(s, x))) <==> Proper(s, x)
  {
    hide Suite.Valid;
    hide ValidParams;
    hide OthersNonzero;
    hide Proper;
    hide Accepts;
    hide Indexable;
    hide StateOf;
    hide CoordinatorReply;
    forall i | 0 <= i < x.N()
      ensures Indexable(StateOf(s, x, i), CoordinatorReply(s, x))
      ensures Accepts(s, x.hostseckeys[i], StateOf(s, x, i), CoordinatorReply(s, x)) <==> OthersNonzero(s, x, i)
    {
      HonestAccepts(s, x, i);
    }
    EveryoneLooks(s, x);
  }

  lemma EveryoneLooks(s: Suite, x: Inputs)
    requires x.Honest(s)
    ensures (forall i :: 0 <= i < x.N() ==> OthersNonzero(s, x, i)) <==> Proper(s, x)
  {
    hide NonzeroConstant;
    hide Suite.Valid;
    if x.N() > 1 && !Proper(s, x) {
      var j :| 0 <= j < x.N() && !NonzeroConstant(s, x, j);
      assert !OthersNonzero(s, x, if j == 0 then 1 else 0);
    }
  }

  // ---------------------------------------------------------------------------
  // The certificate
  // ---------------------------------------------------------------------------

  /** Signatures of all host keys on one transcript certify it. */
  lemma SignAllCertifies(s: Suite, hostPubkeys: seq<Element>, keys: seq<nat>, eqInput: Bytes)
    requires s.Valid() && |hostPubkeys| == |keys|
    requires forall i :: 0 <= i < |keys| ==> Equal(s.q, hostPubkeys[i], BaseMult(keys[i]))
    ensures Uniform(SignAll(s, keys, eqInput), 64) && Certified(s, hostPubkeys, eqInput, Join(SignAll(s, keys, eqInput)))
  {
    hide SchnorrVerify;
    hide SchnorrSign;
    hide Suite.Valid;
    hide Certified;
    var sigs := SignAll(s, keys, eqInput);
    forall i | 0 <= i < |keys|
      ensures |sigs[i]| == 64 && SchnorrVerify(s, hostPubkeys[i], CerteqMessage(eqInput, i), sigs[i])
    {
      var sec := keys[i];
      SignatureVerifies(s, sec, BaseMult(sec), CerteqMessage(eqInput, i));
      VerifyRespectsEqual(s, BaseMult(sec), hostPubkeys[i], CerteqMessage(eqInput, i), sigs[i]);
    }
    SignaturesCertify(s, hostPubkeys, eqInput, sigs);
  }

  lemma SignaturesValid(s: Suite, x: Inputs)
    requires x.Honest(s)
    ensures Uniform(Signatures(s, x), 64)
    ensures Certified(s, x.params.hostPubkeys, EqInput(s, SessionTranscript(s, x)), Join(Signatures(s, x)))
  {
    hide EqInput;
    hide SessionTranscript;
    hide Suite.Valid;
    hide ValidParams;
    hide Certified;
    hide SignAll;
    SignaturesAre(s, x);
    SignAllCertifies(s, x.params.hostPubkeys, x.hostseckeys, EqInput(s, SessionTranscript(s, x)));
  }

  // ---------------------------------------------------------------------------
  // What the outputs are worth
  // ---------------------------------------------------------------------------

  /** Any t participants can reconstruct the secret behind the threshold key, and every public
      share is the commitment to the secret share. */
  lemma OutputsShareTheSecret(s: Suite, x: Inputs, ids: seq<nat>, shares: seq<nat>)
    requires x.Honest(s) && Distinct(ids) && |ids| >= x.T() && |shares| == x.N()
    requires forall k :: 0 <= k < |ids| ==> ids[k] < x.N()
    requires forall i :: 0 <= i < x.N() ==> Output(s, x, i).secShare == Some(shares[i])
    ensures forall i :: 0 <= i < x.N() ==> Equal(s.q, Output(s, x, i).thresholdPubkey, BaseMult(Reconstruct(s.q, ids, shares)))
    ensures forall i, j :: 0 <= i < x.N() && 0 <= j < x.N() ==> Equal(s.q, Output(s, x, j).pubShares[i], BaseMult(shares[i]))
  {
    var c := JointPoly(s, x);
    assert forall i :: 0 <= i < x.N() ==> shares[i] == SecShare(s.q, c, i);
    SharesDetermineSecret(s.q, c, ids, shares);
    hide Reconstruct;
    hide JointPoly;
    CongMod(s.q, c[0]);
    forall i | 0 <= i < x.N()
      ensures Equal(s.q, PubShare(P.FromLogs(c), i), BaseMult(shares[i]))
    {
      CongMod(s.q, Eval(c, Point(i)));
    }
    hide PubShare;
  }

  // ---------------------------------------------------------------------------
  // SimulateSession
  // ---------------------------------------------------------------------------

  /** What the first step leaves with a participant. */
  ghost predicate Started(s: Suite, sec: nat, params: SessionParams, random: Bytes, state: ParticipantState1, msg: E.ParticipantMsg)
    requires s.Valid()
  {
    && ValidParams(s, params) && state.idx < |params.hostPubkeys|
    && Equal(s.q, params.hostPubkeys[state.idx], BaseMult(sec))
    && state == StateAt(s, sec, params, random, state.idx) && msg == MsgAt(s, sec, params, random, state.idx)
  }

  ghost predicate AllStarted(s: Suite, x: Inputs, states: seq<ParticipantState1>, pmsgs: seq<E.ParticipantMsg>)
    requires s.Valid()
  {
    && |states| == |pmsgs| <= |x.hostseckeys| == |x.randoms|
    && forall i :: 0 <= i < |states| ==> Started(s, x.hostseckeys[i], x.params, x.randoms[i], states[i], pmsgs[i])
  }

  method StartAll(s: Suite, x: Inputs) returns (ok: bool, states: seq<ParticipantState1>, pmsgs: seq<E.ParticipantMsg>, e: Error)
    requires s.Valid() && x.WellFormed()
    ensures ok ==> AllStarted(s, x, states, pmsgs) && |states| == |x.hostseckeys|
    ensures x.Honest(s) ==> ok
  {
    hide Suite.Valid;
    hide Started;
    ok, states, pmsgs, e := true, [], [], WrongCount;
    for i := 0 to |x.hostseckeys|
      invariant AllStarted(s, x, states, pmsgs) && |states| == i
    {
      var r := ParticipantStep1(s, x.hostseckeys[i], x.params, x.randoms[i]);
      if r.Err? {
        return false, [], [], r.error;
      }
      StartedNow(s, x.hostseckeys[i], x.params, x.randoms[i], r.value.0, r.value.1);
      states, pmsgs := states + [r.value.0], pmsgs + [r.value.1];
    }
  }

  lemma StartedNow(s: Suite, sec: nat, params: SessionParams, random: Bytes, state: ParticipantState1, msg: E.ParticipantMsg)
    requires s.Valid() && ValidParams(s, params) && state.idx < |params.hostPubkeys|
    requires Equal(s.q, params.hostPubkeys[state.idx], BaseMult(sec))
    requires state == StateAt(s, sec, params, random, state.idx) && msg == MsgAt(s, sec, params, random, state.idx)
    ensures Started(s, sec, params, random, state, msg)
  {
  }

  /** In an honest session everybody finds its own place. */
  lemma StartedHonestly(s: Suite, x: Inputs, states: seq<ParticipantState1>, pmsgs: seq<E.ParticipantMsg>)
    requires x.Honest(s) && AllStarted(s, x, states, pmsgs) && |states| == x.N()
    ensures pmsgs == Messages(s, x)
    ensures forall i :: 0 <= i < x.N() ==> states[i] == StateOf(s, x, i)
  {
    hide Suite.Valid;
    hide StateAt;
    hide E.HonestMsg;
    hide PolyOf;
    hide NonceOf;
    hide E.Usable;
    var h := SessionOf(s, x);
    forall i | 0 <= i < x.N()
      ensures states[i] == StateOf(s, x, i) && pmsgs[i] == E.MsgOf(s, h, i)
    {
      assert Started(s, x.hostseckeys[i], x.params, x.randoms[i], states[i], pmsgs[i]);
      OnePlace(s.q, x.params.hostPubkeys, BaseMult(x.hostseckeys[i]), states[i].idx, i);
    }
  }

  lemma StartedUsable(s: Suite, x: Inputs, states: seq<ParticipantState1>, pmsgs: seq<E.ParticipantMsg>)
    requires s.Valid() && AllStarted(s, x, states, pmsgs) && |pmsgs| == |x.params.hostPubkeys|
    ensures x.params.threshold >= 1 ==> E.Usable(pmsgs, x.params.threshold)
    ensures forall i :: 0 <= i < |states| ==> MemberState(x.params, states[i])
  {
    hide Suite.Valid;
    hide SchnorrSign;
    hide ValidParams;
    forall i | 0 <= i < |pmsgs|
      ensures MemberState(x.params, states[i]) && |pmsgs[i].encShares| == |pmsgs| && |pmsgs[i].simpl.com| == x.params.threshold
    {
      assert Started(s, x.hostseckeys[i], x.params, x.randoms[i], states[i], pmsgs[i]);
      ParamsRange(s, x.params);
    }
  }

  predicate MemberState(params: SessionParams, state: ParticipantState1) {
    && state.idx == state.enc.idx == state.enc.simpl.idx < state.enc.simpl.n
    && state.enc.simpl.n == |state.enc.enckeys| == |params.hostPubkeys|
  }

  lemma MemberIndexable(q: Modulus, params: SessionParams, state: ParticipantState1, pmsgs: seq<E.ParticipantMsg>, t: nat)
    requires MemberState(params, state) && t >= 1 && E.Usable(pmsgs, t) && |pmsgs| == |params.hostPubkeys|
    ensures Indexable(state, ReplyTo(q, pmsgs, t))
  {
  }

  /** All second steps; the first participant that refuses ends the session. */
  method AnswerAll(s: Suite, keys: seq<nat>, states: seq<ParticipantState1>, cmsg: CoordinatorMsg1)
    returns (ok: bool, states2: seq<ParticipantState2>, sigs: seq<Bytes>, e: Error)
    requires |states| == |keys| && forall i :: 0 <= i < |keys| ==> Indexable(states[i], cmsg)
    ensures ok <==> forall i :: 0 <= i < |keys| ==> Accepts(s, keys[i], states[i], cmsg)
    ensures ok ==> |states2| == |sigs| == |keys|
    ensures ok ==> forall i :: 0 <= i < |keys| ==>
      && states2[i] == ParticipantState2(states[i].params, EqInput(s, TranscriptOf(states[i], cmsg)), OutputOf(s, keys[i], states[i], cmsg))
      && sigs[i] == CerteqSign(s, keys[i], BaseMult(keys[i]), states[i].idx, EqInput(s, TranscriptOf(states[i], cmsg)))
  {
    hide Indexable;
    hide Accepts;
    hide EqInput;
    hide TranscriptOf;
    hide OutputOf;
    hide CerteqSign;
    ok, states2, sigs, e := true, [], [], WrongCount;
    for i := 0 to |keys|
      invariant ok && |states2| == |sigs| == i
      invariant forall k :: 0 <= k < i ==> Accepts(s, keys[k], states[k], cmsg)
      invariant forall k :: 0 <= k < i ==>
        && states2[k] == ParticipantState2(states[k].params, EqInput(s, TranscriptOf(states[k], cmsg)), OutputOf(s, keys[k], states[k], cmsg))
        && sigs[k] == CerteqSign(s, keys[k], BaseMult(keys[k]), states[k].idx, EqInput(s, TranscriptOf(states[k], cmsg)))
    {
      var r := ParticipantStep2(s, keys[i], states[i], cmsg);
      if r.Err? {
        return false, [], [], r.error;
      }
      states2, sigs := states2 + [r.value.0], sigs + [r.value.1];
    }
  }

  /** Every participant's finalisation: its output and its copy of the recovery data. */
  method FinishAll(s: Suite, states: seq<ParticipantState2>, cert: Bytes)
    returns (ok: bool, outputs: seq<P.DKGOutput>, copies: seq<Bytes>, e: Error)
    ensures ok <==> forall i :: 0 <= i < |states| ==> Certified(s, states[i].params.hostPubkeys, states[i].eqInput, cert)
    ensures ok ==> |outputs| == |copies| == |states|
    ensures ok ==> forall i :: 0 <= i < |states| ==> outputs[i] == states[i].output && copies[i] == states[i].eqInput + cert
  {
    hide Certified;
    ok, outputs, copies, e := true, [], [], WrongCount;
    for i := 0 to |states|
      invariant ok && |outputs| == |copies| == i
      invariant forall k :: 0 <= k < i ==>
        && Certified(s, states[k].params.hostPubkeys, states[k].eqInput, cert)
        && outputs[k] == states[k].output && copies[k] == states[k].eqInput + cert
    {
      var r := ParticipantFinalize(s, states[i], cert);
      if r.Err? {
        return false, [], [], r.error;
      }
      outputs, copies := outputs + [r.value.0], copies + [r.value.1];
    }
  }

  /** The states and messages of an honest session. */
  ghost predicate HonestStates(s: Suite, x: Inputs, states: seq<ParticipantState1>)
    requires x.Honest(s)
  {
    |states| == x.N() && forall i :: 0 <= i < x.N() ==> states[i] == StateOf(s, x, i)
  }

  lemma StartedMessages(s: Suite, x: Inputs, states: seq<ParticipantState1>, pmsgs: seq<E.ParticipantMsg>)
    requires s.Valid() && AllStarted(s, x, states, pmsgs) && |states| == |x.hostseckeys|
    ensures |pmsgs| == |states|
    ensures ValidParams(s, x.params) && |pmsgs| == x.N() ==> E.Usable(pmsgs, x.params.threshold)
    ensures |pmsgs| == x.N() ==> forall i :: 0 <= i < |states| ==> MemberState(x.params, states[i])
    ensures x.Honest(s) ==> pmsgs == Messages(s, x) && HonestStates(s, x, states)
  {
    hide Suite.Valid;
    hide Started;
    hide StateOf;
    hide MemberState;
    hide E.Usable;
    if |pmsgs| == x.N() {
      StartedUsable(s, x, states, pmsgs);
    }
    if x.Honest(s) {
      StartedHonestly(s, x, states, pmsgs);
    }
  }

  lemma HonestAnswers(s: Suite, x: Inputs, states: seq<ParticipantState1>, cmsg: CoordinatorMsg1)
    requires x.Honest(s) && HonestStates(s, x, states) && cmsg == CoordinatorReply(s, x)
    ensures forall i :: 0 <= i < x.N() ==> Indexable(states[i], cmsg)
    ensures (forall i :: 0 <= i < x.N() ==> Accepts(s, x.hostseckeys[i], states[i], cmsg)) <==> Proper(s, x)
  {
    hide Accepts;
    hide Indexable;
    hide Proper;
    hide StateOf;
    hide CoordinatorReply;
    hide Suite.Valid;
    hide ValidParams;
    AllAccept(s, x);
  }

  /** Everybody signs the coordinator's transcript, and has its output. */
  lemma HonestFinal(s: Suite, x: Inputs, states: seq<ParticipantState1>, cmsg: CoordinatorMsg1)
    requires x.Honest(s) && HonestStates(s, x, states) && cmsg == CoordinatorReply(s, x)
    ensures forall i :: 0 <= i < x.N() ==>
      && Indexable(states[i], cmsg) && TranscriptOf(states[i], cmsg) == SessionTranscript(s, x)
      && OutputOf(s, x.hostseckeys[i], states[i], cmsg) == Output(s, x, i)
      && states[i].idx == i && states[i].params == x.params
  {
    hide Suite.Valid;
    hide ValidParams;
    hide TranscriptOf;
    hide OutputOf;
    hide Output;
    hide Indexable;
    hide SessionTranscript;
    hide CoordinatorReply;
    forall i | 0 <= i < x.N()
      ensures Indexable(states[i], cmsg) && TranscriptOf(states[i], cmsg) == SessionTranscript(s, x)
      ensures OutputOf(s, x.hostseckeys[i], states[i], cmsg) == Output(s, x, i)
      ensures states[i].idx == i && states[i].params == x.params
    {
      TranscriptsAgree(s, x, i);
      ShareIsJoint(s, x, i);
    }
  }

  lemma HonestSignatures(s: Suite, x: Inputs, sigs: seq<Bytes>, eqInput: Bytes)
    requires x.Honest(s) && eqInput == EqInput(s, SessionTranscript(s, x))
    requires |sigs| == x.N() && forall i :: 0 <= i < x.N() ==> sigs[i] == CerteqSign(s, x.hostseckeys[i], BaseMult(x.hostseckeys[i]), i, eqInput)
    ensures Uniform(sigs, 64) && Certified(s, x.params.hostPubkeys, eqInput, Join(sigs))
    ensures eqInput + Join(sigs) == RecoveryData(s, x)
  {
    hide Suite.Valid;
    hide CerteqSign;
    hide SessionTranscript;
    hide EqInput;
    hide Certified;
    hide ValidParams;
    hide Signatures;
    SignedAll(s, x.hostseckeys, eqInput, sigs);
    SignaturesAre(s, x);
    SignaturesValid(s, x);
  }

  lemma SignaturesAre(s: Suite, x: Inputs)
    requires x.Honest(s)
    ensures Signatures(s, x) == SignAll(s, x.hostseckeys, EqInput(s, SessionTranscript(s, x)))
  {
    hide SessionTranscript;
    hide EqInput;
    hide SignAll;
  }

  lemma SignedAll(s: Suite, keys: seq<nat>, eqInput: Bytes, sigs: seq<Bytes>)
    requires |sigs| == |keys| && forall i :: 0 <= i < |keys| ==> sigs[i] == CerteqSign(s, keys[i], BaseMult(keys[i]), i, eqInput)
    ensures sigs == SignAll(s, keys, eqInput)
  {
  }

  lemma TranscriptIs(s: Suite, x: Inputs)
    requires x.Honest(s)
    ensures
      var cmsg := CoordinatorReply(s, x);
      SessionTranscript(s, x) == Transcript(x.T(), P.SumComsOf(cmsg.enc.simpl), x.params.hostPubkeys, cmsg.enc.pubnonces, cmsg.encSecshares)
  {
    hide CoordinatorReply;
  }

  /** SimulateSession: an honest session succeeds exactly when it is proper, and then gives
      every participant its output. The recovery data of the coordinator and the copies that
      the participants make are the same bytes. */
  method SimulateSession(s: Suite, x: Inputs) returns (r: Result<(seq<P.DKGOutput>, Bytes)>, ghost copies: seq<Bytes>)
    requires s.Valid() && x.WellFormed()
    ensures x.Honest(s) ==> (r.Ok? <==> Proper(s, x))
    ensures x.Honest(s) && r.Ok? ==>
      && |r.value.0| == x.N() && (forall i :: 0 <= i < x.N() ==> r.value.0[i] == Output(s, x, i))
      && r.value.1 == RecoveryData(s, x)
      && |copies| == x.N() && (forall i :: 0 <= i < x.N() ==> copies[i] == RecoveryData(s, x))
  {
    hide Suite.Valid;
    hide AllStarted;
    hide ValidParams;
    hide MemberState;
    hide Indexable;
    hide Accepts;
    hide EqInput;
    hide TranscriptOf;
    hide OutputOf;
    hide CerteqSign;
    hide Certified;
    hide StateOf;
    hide ReplyTo;
    hide Proper;
    hide Output;
    hide SessionTranscript;
    hide E.Usable;
    hide Messages;
    hide PubSharesOf;
    var started, states, pmsgs, e := StartAll(s, x);
    if !started {
      return Err(e), [];
    }
    StartedMessages(s, x, states, pmsgs);
    var coord := CoordinatorStep1(s, pmsgs, x.params);
    if coord.Err? {
      return Err(coord.error), [];
    }
    ParamsRange(s, x.params);
    var (coordState, cmsg) := coord.value;
    forall i | 0 <= i < |states|
      ensures Indexable(states[i], cmsg)
    {
      MemberIndexable(s.q, x.params, states[i], pmsgs, x.params.threshold);
    }
    var answered, states2, sigs, e2 := AnswerAll(s, x.hostseckeys, states, cmsg);
    if x.Honest(s) {
      HonestAnswers(s, x, states, cmsg);
    }
    if !answered {
      return Err(e2), [];
    }
    var final := CoordinatorFinalize(s, coordState, sigs);
    if x.Honest(s) {
      HonestFinal(s, x, states, cmsg);
      TranscriptIs(s, x);
      HonestSignatures(s, x, sigs, coordState.eqInput);
    }
    if final.Err? {
      return Err(final.error), [];
    }
    var finished, outputs, datas, e3 := FinishAll(s, states2, final.value.0);
    if !finished {
      return Err(e3), [];
    }
    r := Ok((outputs, final.value.2));
    copies := datas;
  }
}
