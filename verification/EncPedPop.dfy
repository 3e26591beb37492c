/** The middle layer of ChillDKG: shares are sent encrypted, and the coordinator adds up the
    ciphertexts. */
module EncPedPop {
  import opened PrimeField
  import opened Interpolation
  import opened Sums
  import opened Group
  import opened Wire
  import opened Vss
  import opened Certeq
  import opened Ecdh
  import P = SimplPedPop

  datatype ParticipantState = ParticipantState(simpl: P.ParticipantState, pubnonce: Element, enckeys: seq<Element>, idx: nat)

  datatype ParticipantMsg = ParticipantMsg(simpl: P.ParticipantMsg, pubnonce: Element, encShares: seq<nat>)

  datatype CoordinatorMsg = CoordinatorMsg(simpl: P.CoordinatorMsg, pubnonces: seq<Element>)

  /** serializeEncContext */
  function Context(s: Suite, t: nat, enckeys: seq<Element>): Bytes {
    U32(t) + Join(ElementBlocks(s, enckeys))
  }

  /** What a participant derives from its long-term secret and its randomness. */
  function SimplSeed(s: Suite, seed: Bytes, random: Bytes, context: Bytes): (h: Bytes)
    requires s.Valid()
    ensures |h| == 32
  {
    TaggedHash(s, "encpedpop seed", seed + random + context)
  }

  function SecNonce(s: Suite, simplSeed: Bytes): nat {
    TaggedScalar(s, "encpedpop secnonce", simplSeed)
  }

  // ---------------------------------------------------------------------------
  // Participant, first step
  // ---------------------------------------------------------------------------

  function EncShares(s: Suite, coeffs: seq<nat>, secnonce: nat, deckey: nat, enckeys: seq<Element>, context: Bytes, idx: nat): (c: seq<nat>)
    ensures |c| == |enckeys|
  {
    seq(|enckeys|, i requires 0 <= i < |enckeys| =>
      (SecShare(s.q, coeffs, i) + SendPad(s, secnonce, deckey, enckeys, context, idx, i)) % s.q)
  }

  /** The message of an honest participant. */
  function HonestMsg(s: Suite, coeffs: seq<nat>, secnonce: nat, deckey: nat, enckeys: seq<Element>, context: Bytes, idx: nat): ParticipantMsg
    requires coeffs != []
  {
    ParticipantMsg(P.HonestMsg(s, coeffs, idx), BaseMult(secnonce), EncShares(s, coeffs, secnonce, deckey, enckeys, context, idx))
  }

  method ParticipantStep1(s: Suite, seed: Bytes, deckey: nat, enckeys: seq<Element>, t: nat, idx: nat, random: Bytes)
    returns (r: Result<(ParticipantState, ParticipantMsg)>)
    requires s.Valid() && t >= 1
    ensures r.Ok? <==> |random| == 32 && t <= |enckeys| && idx < |enckeys|
    ensures r.Ok? ==>
      var context := Context(s, t, enckeys);
      var simplSeed := SimplSeed(s, seed, random, context);
      var coeffs, secnonce := P.Coeffs(s, simplSeed, t), SecNonce(s, simplSeed);
      && r.value.0 == ParticipantState(P.ParticipantState(t, |enckeys|, idx, BaseMult(coeffs[0])), BaseMult(secnonce), enckeys, idx)
      && r.value.1 == HonestMsg(s, coeffs, secnonce, deckey, enckeys, context, idx)
  {
    hide Suite.Valid;
    hide P.HonestMsg;
    hide SendPad;
    if |random| != 32 {
      return Err(InvalidRandomness);
    }
    var context := AppendElements(s, U32(t), enckeys);
    var simplSeed := SimplSeed(s, seed, random, context);
    var simplAuxRand := TaggedHash(s, "simplpedpop aux", simplSeed);
    var secnonce := SecNonce(s, simplSeed);
    var simpl := P.ParticipantStep1(s, simplSeed, t, |enckeys|, idx, simplAuxRand);
    if simpl.Err? {
      return Err(simpl.error);
    }
    var encShares := EncryptMulti(s, secnonce, deckey, enckeys, context, idx, simpl.value.2);
    assert encShares == EncShares(s, P.Coeffs(s, simplSeed, t), secnonce, deckey, enckeys, context, idx);
    r := Ok((ParticipantState(simpl.value.0, BaseMult(secnonce), enckeys, idx),
             ParticipantMsg(simpl.value.1, BaseMult(secnonce), encShares)));
  }

  // ---------------------------------------------------------------------------
  // Coordinator
  // ---------------------------------------------------------------------------

  function SimplMsgs(pmsgs: seq<ParticipantMsg>): (ms: seq<P.ParticipantMsg>)
    ensures |ms| == |pmsgs|
  {
    seq(|pmsgs|, j requires 0 <= j < |pmsgs| => pmsgs[j].simpl)
  }

  function PubNonces(pmsgs: seq<ParticipantMsg>): (ns: seq<Element>)
    ensures |ns| == |pmsgs|
  {
    seq(|pmsgs|, j requires 0 <= j < |pmsgs| => pmsgs[j].pubnonce)
  }

  /** Messages the coordinator can process: one ciphertext for everybody, a commitment that
      can be added up. */
  predicate Usable(pmsgs: seq<ParticipantMsg>, t: nat) {
    && P.Summable(SimplMsgs(pmsgs), t)
    && forall j :: 0 <= j < |pmsgs| ==> |pmsgs[j].encShares| >= |pmsgs|
  }

  function CipherTerms(pmsgs: seq<ParticipantMsg>, i: nat): nat -> int {
    (j: nat) => if j < |pmsgs| && i < |pmsgs[j].encShares| then pmsgs[j].encShares[i] else 0
  }

  function SumCiphertexts(q: Modulus, pmsgs: seq<ParticipantMsg>): (c: seq<nat>)
    ensures |c| == |pmsgs| && forall i :: 0 <= i < |c| ==> c[i] < q
  {
    seq(|pmsgs|, i requires 0 <= i < |pmsgs| => Total(|pmsgs|, CipherTerms(pmsgs, i)) % q)
  }

  method AddCiphertexts(q: Modulus, pmsgs: seq<ParticipantMsg>, i: nat) returns (sum: nat)
    requires forall j :: 0 <= j < |pmsgs| ==> i < |pmsgs[j].encShares|
    ensures sum == Total(|pmsgs|, CipherTerms(pmsgs, i)) % q
  {
    sum := 0;
    ghost var f := CipherTerms(pmsgs, i);
    for j := 0 to |pmsgs|
      invariant sum == Total(j, f) % q
    {
      ModAdd(q, Total(j, f), f(j));
      sum := (sum + pmsgs[j].encShares[i]) % q;
    }
  }

  method CoordinatorStep(s: Suite, pmsgs: seq<ParticipantMsg>, t: nat, enckeys: seq<Element>)
    returns (r: Result<(CoordinatorMsg, P.DKGOutput, Bytes, seq<nat>)>)
    requires t >= 1 && Usable(pmsgs, t)
    ensures r.Ok? <==> |pmsgs| == |enckeys|
    ensures r.Ok? ==>
      var simpl := P.Reply(SimplMsgs(pmsgs), t);
      var points := P.SumComsOf(simpl);
      && r.value.0 == CoordinatorMsg(simpl, PubNonces(pmsgs))
      && r.value.1 == P.DKGOutput(None, points[0], PubSharesOf(points, |pmsgs|))
      && r.value.2 == P.EqStart(s, t, points) + Join(ElementBlocks(s, enckeys)) + Join(ElementBlocks(s, PubNonces(pmsgs)))
      && r.value.3 == SumCiphertexts(s.q, pmsgs)
  {
    hide P.Reply;
    hide P.SumComsOf;
    var n := |pmsgs|;
    if n != |enckeys| {
      return Err(WrongCount);
    }
    var simplMsgs, pubnonces := SimplMsgs(pmsgs), PubNonces(pmsgs);
    var simpl := P.CoordinatorStep(s, simplMsgs, t, n);
    var (simplCmsg, output, eqInput) := simpl.value;
    var encSecshares := [];
    for i := 0 to n
      invariant encSecshares == SumCiphertexts(s.q, pmsgs)[..i]
    {
      var sum := AddCiphertexts(s.q, pmsgs, i);
      encSecshares := encSecshares + [sum];
    }
    eqInput := AppendElements(s, eqInput, enckeys);
    eqInput := AppendElements(s, eqInput, pubnonces);
    r := Ok((CoordinatorMsg(simplCmsg, pubnonces), output, eqInput, encSecshares));
  }

  // ---------------------------------------------------------------------------
  // Participant, second step
  // ---------------------------------------------------------------------------

  /** The lists in a coordinator message are long enough to be indexed. */
  predicate Indexable(state: ParticipantState, cmsg: CoordinatorMsg) {
    && state.idx == state.simpl.idx < state.simpl.n == |state.enckeys|
    && state.simpl.n <= |cmsg.simpl.comsToSecrets| && state.simpl.n <= |cmsg.simpl.pops|
    && state.simpl.n <= |cmsg.pubnonces|
  }

  /** The share a participant takes from the coordinator's message. */
  function ReceivedShare(s: Suite, state: ParticipantState, deckey: nat, cmsg: CoordinatorMsg, encSecshare: nat): (z: nat)
    requires Indexable(state, cmsg)
    ensures z < s.q
  {
    Decrypted(s, deckey, state.enckeys[state.idx], cmsg.pubnonces, Context(s, state.simpl.t, state.enckeys), state.idx, encSecshare)
  }

  predicate Accepts(s: Suite, state: ParticipantState, deckey: nat, cmsg: CoordinatorMsg, encSecshare: nat)
    requires Indexable(state, cmsg)
  {
    && Equal(s.q, cmsg.pubnonces[state.idx], state.pubnonce)
    && P.Accepts(s, state.simpl, cmsg.simpl, ReceivedShare(s, state, deckey, cmsg, encSecshare))
  }

  method ParticipantStep2(s: Suite, state: ParticipantState, deckey: nat, cmsg: CoordinatorMsg, encSecshare: nat)
    returns (r: Result<(P.DKGOutput, Bytes)>)
    requires Indexable(state, cmsg)
    ensures r.Ok? <==> Accepts(s, state, deckey, cmsg, encSecshare)
    ensures r.Ok? ==>
      var points := P.SumComsOf(cmsg.simpl);
      && r.value.0 == P.DKGOutput(Some(ReceivedShare(s, state, deckey, cmsg, encSecshare)), points[0], PubSharesOf(points, state.simpl.n))
      && r.value.1 == P.EqStart(s, state.simpl.t, points) + Join(ElementBlocks(s, state.enckeys)) + Join(ElementBlocks(s, cmsg.pubnonces))
    ensures r.Ok? ==> Equal(s.q, cmsg.pubnonces[state.idx], state.pubnonce)
    ensures r.Ok? ==> r.value.0.secShare.Some? && Equal(s.q, BaseMult(r.value.0.secShare.value), r.value.0.pubShares[state.idx])
  {
    hide P.Accepts;
    hide Decrypted;
    hide P.SumComsOf;
    if !Equal(s.q, cmsg.pubnonces[state.idx], state.pubnonce) {
      return Err(FaultyCoordinator);
    }
    var context := AppendElements(s, U32(state.simpl.t), state.enckeys);
    var secshare := DecryptSum(s, deckey, state.enckeys[state.idx], cmsg.pubnonces, context, state.idx, encSecshare);
    var simpl := P.ParticipantStep2(s, state.simpl, cmsg.simpl, secshare);
    if simpl.Err? {
      return Err(simpl.error);
    }
    var eqInput := AppendElements(s, simpl.value.1, state.enckeys);
    eqInput := AppendElements(s, eqInput, cmsg.pubnonces);
    r := Ok((simpl.value.0, eqInput));
  }

  // ---------------------------------------------------------------------------
  // Honest runs
  // ---------------------------------------------------------------------------

  /** The secrets of all participants of a session. */
  datatype Session = Session(t: nat, enckeys: seq<Element>, deckeys: seq<nat>, polys: seq<seq<nat>>, secnonces: seq<nat>) {
    function N(): nat { |enckeys| }

    ghost predicate Valid(s: Suite) {
      && s.Valid() && 1 <= t <= N() < 0x1_0000_0000
      && |deckeys| == |polys| == |secnonces| == N()
      && (forall j :: 0 <= j < N() ==> |polys[j]| == t)
      && (forall j :: 0 <= j < N() ==> Equal(s.q, enckeys[j], BaseMult(deckeys[j])))
    }
  }

  function MsgOf(s: Suite, h: Session, j: nat): ParticipantMsg
    requires j < |h.polys| && j < |h.secnonces| && j < |h.deckeys| && h.polys[j] != []
  {
    HonestMsg(s, h.polys[j], h.secnonces[j], h.deckeys[j], h.enckeys, Context(s, h.t, h.enckeys), j)
  }

  ghost function Msgs(s: Suite, h: Session): (pmsgs: seq<ParticipantMsg>)
    requires h.Valid(s)
    ensures |pmsgs| == h.N() && forall j :: 0 <= j < h.N() ==> pmsgs[j] == MsgOf(s, h, j)
  {
    seq(h.N(), j requires 0 <= j < h.N() => MsgOf(s, h, j))
  }

  lemma MsgsUsable(s: Suite, h: Session)
    requires h.Valid(s)
    ensures Usable(Msgs(s, h), h.t)
    ensures P.HonestMsgs(s, h.polys, SimplMsgs(Msgs(s, h)), h.t)
  {
    hide P.HonestMsg;
    hide EncShares;
    var pmsgs := Msgs(s, h);
    forall j | 0 <= j < h.N()
      ensures 1 <= |SimplMsgs(pmsgs)[j].com| <= h.t && |pmsgs[j].encShares| >= |pmsgs|
      ensures SimplMsgs(pmsgs)[j] == P.HonestMsg(s, h.polys[j], j)
    {
      assert pmsgs[j] == MsgOf(s, h, j);
      CommitmentSize(s, h.polys[j], j);
    }
  }

  lemma CommitmentSize(s: Suite, coeffs: seq<nat>, idx: nat)
    requires coeffs != []
    ensures P.HonestMsg(s, coeffs, idx).com == Commitment(coeffs)
  {
  }

  /** The joint polynomial. */
  ghost function JointPoly(s: Suite, h: Session): (c: seq<int>)
    requires h.Valid(s)
    ensures |c| == h.t
  {
    SumPolys(h.polys, h.t)
  }

  /** The summed commitment commits to the joint polynomial. */
  lemma JointCommitment(s: Suite, h: Session)
    requires h.Valid(s)
    ensures Usable(Msgs(s, h), h.t)
    ensures Logs(P.SumComsOf(P.Reply(SimplMsgs(Msgs(s, h)), h.t))) == JointPoly(s, h)
  {
    hide Suite.Valid;
    hide P.Reply;
    hide P.SumComsOf;
    hide SchnorrSign;
    hide Usable;
    hide SumPolys;
    MsgsUsable(s, h);
    SummableIfUsable(Msgs(s, h), h.t);
    var ms := SimplMsgs(Msgs(s, h));
    P.ReplyCommitsToSum(ms, h.t);
    hide Msgs;
    forall j | 0 <= j < h.N()
      ensures P.Polys(ms)[j] == h.polys[j]
    {
      assert ms[j] == P.HonestMsg(s, h.polys[j], j);
    }
    assert P.Polys(ms) == h.polys;
  }

  lemma SummableIfUsable(pmsgs: seq<ParticipantMsg>, t: nat)
    requires Usable(pmsgs, t)
    ensures P.Summable(SimplMsgs(pmsgs), t)
  {
  }

  function PlainTerms(q: Modulus, polys: seq<seq<nat>>, i: nat): nat -> int {
    (j: nat) => if j < |polys| then SecShare(q, polys[j], i) else 0
  }

  function EvalTerms(polys: seq<seq<nat>>, x: int): nat -> int {
    (j: nat) => if j < |polys| then Eval(polys[j], x) else 0
  }

  /** The pads of the senders are the pads of the receiver. */
  lemma SamePad(s: Suite, h: Session, i: nat, j: nat)
    requires h.Valid(s) && i < h.N() && j < h.N()
    ensures SendPad(s, h.secnonces[j], h.deckeys[j], h.enckeys, Context(s, h.t, h.enckeys), j, i)
         == ReceivePad(s, h.deckeys[i], h.enckeys[i], PubNonces(Msgs(s, h)), Context(s, h.t, h.enckeys), i, j)
  {
    hide EcdhPad;
    hide SelfPad;
    hide Context;
    hide EncShares;
    hide P.HonestMsg;
    var nonces := PubNonces(Msgs(s, h));
    assert Msgs(s, h)[j] == MsgOf(s, h, j) && nonces[j] == BaseMult(h.secnonces[j]);
    if i != j {
      PadsAgree(s, h.secnonces[j], nonces[j], h.deckeys[i], h.enckeys[i], U32(i) + Context(s, h.t, h.enckeys));
    }
  }

  /** The sum of everybody's shares for i is the share of the joint polynomial. */
  lemma JointShare(q: Modulus, polys: seq<seq<nat>>, t: nat, i: nat)
    requires Fits(polys, t)
    ensures Total(|polys|, PlainTerms(q, polys, i)) % q == SecShare(q, SumPolys(polys, t), i)
  {
    var f, g := PlainTerms(q, polys, i), EvalTerms(polys, Point(i));
    forall j | 0 <= j < |polys|
      ensures Cong(q, f(j), g(j))
    {
      CongMod(q, Eval(polys[j], Point(i)));
    }
    TotalCong(q, |polys|, f, g);
    EvalSum(polys, t, Point(i), g);
  }

  /** Pads cancel: every participant receives its share of the joint polynomial. */
  lemma ReceivesJointShare(s: Suite, h: Session, i: nat)
    requires h.Valid(s) && i < h.N()
    ensures Decrypted(s, h.deckeys[i], h.enckeys[i], PubNonces(Msgs(s, h)), Context(s, h.t, h.enckeys), i, SumCiphertexts(s.q, Msgs(s, h))[i])
         == SecShare(s.q, JointPoly(s, h), i)
  {
    hide ReceivePad;
    hide SendPad;
    hide Context;
    hide P.HonestMsg;
    hide Suite.Valid;
    var pmsgs := Msgs(s, h);
    var context := Context(s, h.t, h.enckeys);
    var plain := PlainTerms(s.q, h.polys, i);
    var pad := PadTerms(s, h.deckeys[i], h.enckeys[i], PubNonces(pmsgs), context, i);
    var cipher := CipherTerms(pmsgs, i);
    forall j | 0 <= j < h.N()
      ensures cipher(j) == (plain(j) + pad(j)) % s.q
    {
      assert pmsgs[j] == MsgOf(s, h, j);
      SamePad(s, h, i, j);
    }
    PadsCancel(s.q, h.N(), plain, pad, cipher);
    JointShare(s.q, h.polys, h.t, i);
  }
}
