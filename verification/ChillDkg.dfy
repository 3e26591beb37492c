/** ChillDKG: session parameters, the steps of participants and coordinator, and a whole honest
    session. */
module ChillDkg {
  import opened PrimeField
  import opened Sums
  import opened Group
  import opened Party
  import opened Wire
  import opened Vss
  import opened Certeq
  import P = SimplPedPop
  import E = EncPedPop
  import Ecdh

  datatype SessionParams = SessionParams(hostPubkeys: seq<Element>, threshold: ID)

  // ---------------------------------------------------------------------------
  // Parameters
  // ---------------------------------------------------------------------------

  /** Different keys at any two positions. */
  predicate DistinctKeys(q: Modulus, keys: seq<Element>) {
    forall i, j :: 0 <= i < j < |keys| ==> !Equal(q, keys[i], keys[j])
  }

  predicate ValidParams(s: Suite, params: SessionParams) {
    && 1 <= params.threshold <= |params.hostPubkeys| <= 0xFFFF_FFFF
    && DistinctKeys(s.q, params.hostPubkeys)
  }

  /** ParamsValidate; the map of encodings seen so far finds the first repetition. */
  method ParamsValidate(s: Suite, params: SessionParams) returns (e: Option<Error>)
    requires s.Valid()
    ensures e == None <==> ValidParams(s, params)
    ensures e.Some? ==>
      if e.value.DuplicateHostPubkey? then
        var keys := params.hostPubkeys;
        && e.value.first < e.value.second < |keys|
        && Equal(s.q, keys[e.value.first], keys[e.value.second])
        && DistinctKeys(s.q, keys[..e.value.second])
      else e.value == ThresholdOrCount
  {
    hide Suite.Valid;
    var keys := params.hostPubkeys;
    var n, t := |keys|, params.threshold;
    if t < 1 || t > n || n > 0xFFFF_FFFF {
      return Some(ThresholdOrCount);
    }
    var seen: map<Bytes, nat> := map[];
    for i := 0 to n
      invariant DistinctKeys(s.q, keys[..i])
      invariant forall b :: b in seen ==> seen[b] < i && s.Encode(keys[seen[b]]) == b
      invariant forall k :: 0 <= k < i ==> s.Encode(keys[k]) in seen
    {
      var key := s.Encode(keys[i]);
      if key in seen {
        EncodeExact(s, keys[seen[key]], keys[i]);
        return Some(DuplicateHostPubkey(seen[key], i));
      }
      NewKeyDistinct(s, keys, i);
      seen := seen[key := i];
    }
    assert keys[..n] == keys;
    e := None;
  }

  lemma NewKeyDistinct(s: Suite, keys: seq<Element>, i: nat)
    requires s.Valid() && i < |keys| && DistinctKeys(s.q, keys[..i])
    requires forall k :: 0 <= k < i ==> s.Encode(keys[k]) != s.Encode(keys[i])
    ensures DistinctKeys(s.q, keys[..i + 1])
  {
  }

  /** The search for one's own host key. */
  method FindHostKey(q: Modulus, keys: seq<Element>, key: Element) returns (idx: Option<nat>)
    ensures idx == None <==> forall i :: 0 <= i < |keys| ==> !Equal(q, keys[i], key)
    ensures idx.Some? ==> idx.value < |keys| && Equal(q, keys[idx.value], key)
    ensures idx.Some? ==> forall k :: 0 <= k < idx.value ==> !Equal(q, keys[k], key)
  {
    for i := 0 to |keys|
      invariant forall k :: 0 <= k < i ==> !Equal(q, keys[k], key)
    {
      if Equal(q, keys[i], key) {
        return Some(i);
      }
    }
    idx := None;
  }

  /** With different host keys a key has one place. */
  lemma OnePlace(q: Modulus, keys: seq<Element>, key: Element, i: nat, j: nat)
    requires DistinctKeys(q, keys) && i < |keys| && j < |keys|
    requires Equal(q, keys[i], key) && Equal(q, keys[j], key)
    ensures i == j
  {
  }

  // ---------------------------------------------------------------------------
  // Messages and states
  // ---------------------------------------------------------------------------

  datatype ParticipantState1 = ParticipantState1(params: SessionParams, idx: nat, enc: E.ParticipantState)

  datatype ParticipantState2 = ParticipantState2(params: SessionParams, eqInput: Bytes, output: P.DKGOutput)

  datatype CoordinatorMsg1 = CoordinatorMsg1(enc: E.CoordinatorMsg, encSecshares: seq<nat>)

  datatype CoordinatorState = CoordinatorState(params: SessionParams, eqInput: Bytes, output: P.DKGOutput)

  /** What the participants certify. */
  datatype Transcript = Transcript(t: nat, sumComs: seq<Element>, hostPubkeys: seq<Element>, pubnonces: seq<Element>, encSecshares: seq<nat>)

  function EqInput(s: Suite, tr: Transcript): Bytes {
    P.EqStart(s, tr.t, tr.sumComs) + Join(ElementBlocks(s, tr.hostPubkeys)) + Join(ElementBlocks(s, tr.pubnonces))
      + Join(ScalarBlocks(s, tr.encSecshares))
  }

  // ---------------------------------------------------------------------------
  // Participants
  // ---------------------------------------------------------------------------

  function SeedOf(s: Suite, hostseckey: nat, params: SessionParams, random: Bytes): (h: Bytes)
    requires s.Valid()
    ensures |h| == 32
  {
    E.SimplSeed(s, s.scalarBytes(hostseckey), random, E.Context(s, params.threshold, params.hostPubkeys))
  }

  /** The secret polynomial and the secret nonce of a participant. */
  function PolyOf(s: Suite, hostseckey: nat, params: SessionParams, random: Bytes): (c: seq<nat>)
    requires s.Valid()
    ensures |c| == params.threshold
  {
    P.Coeffs(s, SeedOf(s, hostseckey, params, random), params.threshold)
  }

  function NonceOf(s: Suite, hostseckey: nat, params: SessionParams, random: Bytes): nat
    requires s.Valid()
  {
    E.SecNonce(s, SeedOf(s, hostseckey, params, random))
  }

  /** State and message of the participant at position idx. */
  function StateAt(s: Suite, hostseckey: nat, params: SessionParams, random: Bytes, idx: nat): ParticipantState1
    requires s.Valid() && params.threshold >= 1
  {
    var coeffs := PolyOf(s, hostseckey, params, random);
    var simpl := P.ParticipantState(params.threshold, |params.hostPubkeys|, idx, BaseMult(coeffs[0]));
    ParticipantState1(params, idx, E.ParticipantState(simpl, BaseMult(NonceOf(s, hostseckey, params, random)), params.hostPubkeys, idx))
  }

  function MsgAt(s: Suite, hostseckey: nat, params: SessionParams, random: Bytes, idx: nat): E.ParticipantMsg
    requires s.Valid() && params.threshold >= 1
  {
    E.HonestMsg(s, PolyOf(s, hostseckey, params, random), NonceOf(s, hostseckey, params, random), hostseckey,
                params.hostPubkeys, E.Context(s, params.threshold, params.hostPubkeys), idx)
  }

  method ParticipantStep1(s: Suite, hostseckey: nat, params: SessionParams, random: Bytes)
    returns (r: Result<(ParticipantState1, E.ParticipantMsg)>)
    requires s.Valid()
    ensures r.Ok? <==> (
      && ValidParams(s, params) && |random| == 32
      && exists i :: 0 <= i < |params.hostPubkeys| && Equal(s.q, params.hostPubkeys[i], BaseMult(hostseckey)))
    ensures r.Ok? ==>
      var idx := r.value.0.idx;
      && idx < |params.hostPubkeys| && Equal(s.q, params.hostPubkeys[idx], BaseMult(hostseckey))
      && r.value == (StateAt(s, hostseckey, params, random, idx), MsgAt(s, hostseckey, params, random, idx))
  {
    hide Suite.Valid;
    hide E.HonestMsg;
    hide ValidParams;
    var invalid := ParamsValidate(s, params);
    if invalid.Some? {
      return Err(invalid.value);
    }
    ParamsRange(s, params);
    var idx := FindHostKey(s.q, params.hostPubkeys, BaseMult(hostseckey));
    if idx.None? {
      return Err(HostkeyMismatch);
    }
    if |random| != 32 {
      return Err(InvalidRandomness);
    }
    var enc := E.ParticipantStep1(s, s.scalarBytes(hostseckey), hostseckey, params.hostPubkeys, params.threshold, idx.value, random);
    r := Ok((ParticipantState1(params, idx.value, enc.value.0), enc.value.1));
  }

  lemma ParamsRange(s: Suite, params: SessionParams)
    requires ValidParams(s, params)
    ensures 1 <= params.threshold <= |params.hostPubkeys| <= 0xFFFF_FFFF
  {
  }

  /** The coordinator's lists can be indexed by the participant. */
  predicate Indexable(state: ParticipantState1, cmsg: CoordinatorMsg1) {
    state.idx == state.enc.idx < |cmsg.encSecshares| && E.Indexable(state.enc, cmsg.enc)
  }

  predicate Accepts(s: Suite, hostseckey: nat, state: ParticipantState1, cmsg: CoordinatorMsg1)
    requires Indexable(state, cmsg)
  {
    E.Accepts(s, state.enc, hostseckey, cmsg.enc, cmsg.encSecshares[state.idx])
  }

  /** The transcript as a participant sees it. */
  function TranscriptOf(state: ParticipantState1, cmsg: CoordinatorMsg1): Transcript {
    Transcript(state.enc.simpl.t, P.SumComsOf(cmsg.enc.simpl), state.enc.enckeys, cmsg.enc.pubnonces, cmsg.encSecshares)
  }

  /** What a participant takes from the coordinator's message. */
  function OutputOf(s: Suite, hostseckey: nat, state: ParticipantState1, cmsg: CoordinatorMsg1): P.DKGOutput
    requires Indexable(state, cmsg)
  {
    var points := P.SumComsOf(cmsg.enc.simpl);
    P.DKGOutput(Some(E.ReceivedShare(s, state.enc, hostseckey, cmsg.enc, cmsg.encSecshares[state.idx])),
                points[0], PubSharesOf(points, state.enc.simpl.n))
  }

  method ParticipantStep2(s: Suite, hostseckey: nat, state: ParticipantState1, cmsg: CoordinatorMsg1)
    returns (r: Result<(ParticipantState2, Bytes)>)
    requires Indexable(state, cmsg)
    ensures r.Ok? <==> Accepts(s, hostseckey, state, cmsg)
    ensures r.Ok? ==>
      var eqInput := EqInput(s, TranscriptOf(state, cmsg));
      && r.value.0 == ParticipantState2(state.params, eqInput, OutputOf(s, hostseckey, state, cmsg))
      && r.value.1 == CerteqSign(s, hostseckey, BaseMult(hostseckey), state.idx, eqInput)
    ensures r.Ok? ==> Equal(s.q, cmsg.enc.pubnonces[state.idx], state.enc.pubnonce)
    ensures r.Ok? ==>
      var output := r.value.0.output;
      output.secShare.Some? && Equal(s.q, BaseMult(output.secShare.value), output.pubShares[state.idx])
  {
    hide E.Accepts;
    hide E.ReceivedShare;
    hide P.SumComsOf;
    hide SchnorrSign;
    var enc := E.ParticipantStep2(s, state.enc, hostseckey, cmsg.enc, cmsg.encSecshares[state.idx]);
    if enc.Err? {
      return Err(enc.error);
    }
    var eqInput := AppendScalars(s, enc.value.1, cmsg.encSecshares);
    var msg := BuildCerteqMessage(eqInput, state.idx);
    var sig := SchnorrSign(s, hostseckey, BaseMult(hostseckey), msg);
    r := Ok((ParticipantState2(state.params, eqInput, enc.value.0), sig));
  }

  /** What a participant accepts is a share of the polynomial that the coordinator's message
      commits to, whoever sent what. */
  lemma AcceptedShare(s: Suite, hostseckey: nat, state: ParticipantState1, cmsg: CoordinatorMsg1)
    requires Indexable(state, cmsg) && Accepts(s, hostseckey, state, cmsg)
    ensures OutputOf(s, hostseckey, state, cmsg).secShare == Some(SecShare(s.q, Logs(TranscriptOf(state, cmsg).sumComs), state.idx))
    ensures
      var output := OutputOf(s, hostseckey, state, cmsg);
      Equal(s.q, BaseMult(output.secShare.value), output.pubShares[state.idx])
  {
    hide P.SumComsOf;
    hide P.OthersOK;
    hide Ecdh.Decrypted;
    hide SecShare;
    hide PubShare;
    VerifyExact(s.q, P.SumComsOf(cmsg.enc.simpl), state.idx,
                E.ReceivedShare(s, state.enc, hostseckey, cmsg.enc, cmsg.encSecshares[state.idx]));
  }

  method ParticipantFinalize(s: Suite, state: ParticipantState2, cert: Bytes) returns (r: Result<(P.DKGOutput, Bytes)>)
    ensures r.Ok? <==> Certified(s, state.params.hostPubkeys, state.eqInput, cert)
    ensures r.Ok? ==> r.value == (state.output, state.eqInput + cert)
  {
    hide Certified;
    var failed := CerteqVerify(s, state.params.hostPubkeys, state.eqInput, cert);
    if failed.Some? {
      return Err(failed.value);
    }
    r := Ok((state.output, state.eqInput + cert));
  }

  // ---------------------------------------------------------------------------
  // Coordinator
  // ---------------------------------------------------------------------------

  function ReplyTo(q: Modulus, pmsgs: seq<E.ParticipantMsg>, t: nat): CoordinatorMsg1
    requires t >= 1 && E.Usable(pmsgs, t)
  {
    CoordinatorMsg1(E.CoordinatorMsg(P.Reply(E.SimplMsgs(pmsgs), t), E.PubNonces(pmsgs)), E.SumCiphertexts(q, pmsgs))
  }

  method CoordinatorStep1(s: Suite, pmsgs: seq<E.ParticipantMsg>, params: SessionParams)
    returns (r: Result<(CoordinatorState, CoordinatorMsg1)>)
    requires s.Valid()
    requires ValidParams(s, params) && |pmsgs| == |params.hostPubkeys| ==> E.Usable(pmsgs, params.threshold)
    ensures r.Ok? <==> ValidParams(s, params) && |pmsgs| == |params.hostPubkeys|
    ensures r.Ok? ==>
      var cmsg := ReplyTo(s.q, pmsgs, params.threshold);
      var points := P.SumComsOf(cmsg.enc.simpl);
      && r.value.1 == cmsg && r.value.0.params == params
      && r.value.0.eqInput == EqInput(s, Transcript(params.threshold, points, params.hostPubkeys, cmsg.enc.pubnonces, cmsg.encSecshares))
      && r.value.0.output == P.DKGOutput(None, points[0], PubSharesOf(points, |pmsgs|))
  {
    hide Suite.Valid;
    hide ValidParams;
    hide E.Usable;
    hide P.Reply;
    hide P.SumComsOf;
    var invalid := ParamsValidate(s, params);
    if invalid.Some? {
      return Err(invalid.value);
    }
    ParamsRange(s, params);
    if |pmsgs| != |params.hostPubkeys| {
      return Err(WrongCount);
    }
    var enc := E.CoordinatorStep(s, pmsgs, params.threshold, params.hostPubkeys);
    var (encCmsg, output, eqStart, encSecshares) := enc.value;
    var eqInput := AppendScalars(s, eqStart, encSecshares);
    r := Ok((CoordinatorState(params, eqInput, output), CoordinatorMsg1(encCmsg, encSecshares)));
  }

  method CoordinatorFinalize(s: Suite, state: CoordinatorState, sigs: seq<Bytes>)
    returns (r: Result<(Bytes, P.DKGOutput, Bytes)>)
    ensures r.Ok? <==> (
      && |sigs| == |state.params.hostPubkeys| && Uniform(sigs, 64)
      && Certified(s, state.params.hostPubkeys, state.eqInput, Join(sigs)))
    ensures r.Ok? ==> r.value == (Join(sigs), state.output, state.eqInput + Join(sigs))
  {
    hide Certified;
    var n := |state.params.hostPubkeys|;
    if |sigs| != n {
      return Err(WrongCount);
    }
    var cert := [];
    for i := 0 to n
      invariant Uniform(sigs[..i], 64) && cert == Join(sigs[..i])
    {
      if |sigs[i]| != 64 {
        return Err(FaultyParticipant(i));
      }
      TakeSnoc(sigs, i);
      JoinSnoc(sigs[..i], sigs[i]);
      cert := cert + sigs[i];
    }
    assert sigs[..n] == sigs;
    var failed := CerteqVerify(s, state.params.hostPubkeys, state.eqInput, cert);
    if failed.Some? {
      return Err(failed.value);
    }
    r := Ok((cert, state.output, state.eqInput + cert));
  }
}
